/** The 32-bit instruction formats: the emitter's encoders, and an independent
    decoder written from the field layout of the RISC-V unprivileged ISA manual
    (section 2.3). */
module RvEncode {
  import opened Options
  import opened Words
  import opened RvArith
  import opened RvMachine

  // ----- the encoders, fields combined by | -----

  function Or6(a: nat, b: nat, c: nat, d: nat, e: nat, f: nat): nat { Or(Or(Or(Or(Or(a, b), c), d), e), f) }

  function EncR(f7: nat, rs2: nat, rs1: nat, f3: nat, rd: nat, op: nat): nat {
    Or6(f7 * 0x200_0000, rs2 * 0x10_0000, rs1 * 0x8000, f3 * 0x1000, rd * 0x80, op)
  }

  function EncI(op: nat, rd: nat, f3: nat, rs1: nat, imm: int): nat {
    Or(Or(Or(Or(imm % 0x1000 * 0x10_0000, rs1 * 0x8000), f3 * 0x1000), rd * 0x80), op)
  }

  function EncS(op: nat, f3: nat, rs1: nat, rs2: nat, imm: int): nat {
    var u := imm % 0x1000;
    Or6(u / 32 * 0x200_0000, rs2 * 0x10_0000, rs1 * 0x8000, f3 * 0x1000, u % 32 * 0x80, op)
  }

  function EncB(op: nat, f3: nat, rs1: nat, rs2: nat, imm: int): nat {
    var u := imm % 0x1_0000_0000;
    Or(Or(Or6(u / 0x1000 % 2 * 0x8000_0000, u / 32 % 64 * 0x200_0000, rs2 * 0x10_0000, rs1 * 0x8000, f3 * 0x1000,
       u / 2 % 16 * 0x100), u / 0x800 % 2 * 0x80), op)
  }

  function EncU(op: nat, rd: nat, imm20: int): nat {
    Or(Or(imm20 % 0x10_0000 * 0x1000, rd * 0x80), op)
  }

  function EncJ(op: nat, rd: nat, imm: int): nat {
    var u := imm % 0x1_0000_0000;
    Or6(u / 0x10_0000 % 2 * 0x8000_0000, u / 2 % 1024 * 0x20_0000, u / 0x800 % 2 * 0x10_0000,
      u / 0x1000 % 256 * 0x1000, rd * 0x80, op)
  }

  /** `|` of disjoint fields is addition */
  lemma {:induction false} OrAdd(x: nat, y: nat, k: nat)
    requires x % Pow2(k) == 0 && y < Pow2(k)
    ensures Or(x, y) == x + y
    decreases k
  {
    if k == 0 {
      OrNothing(x);
    } else if x != 0 || y != 0 {
      HalfMod(x, Pow2(k - 1));
      OrAdd(x / 2, y / 2, k - 1);
    }
  }

  lemma {:induction false} OrNothing(x: nat)
    ensures Or(x, 0) == x
  {
    if x != 0 { OrNothing(x / 2); }
  }

  lemma FieldWidths()
    ensures Pow2(7) == 0x80 && Pow2(8) == 0x100 && Pow2(12) == 0x1000 && Pow2(15) == 0x8000 && Pow2(20) == 0x10_0000
    ensures Pow2(21) == 0x20_0000 && Pow2(25) == 0x200_0000 && Pow2(31) == 0x8000_0000
  {
    assert Pow2(3) == 8 && Pow2(5) == 32;
    Pow2Sum(5, 2); Pow2Sum(5, 3); Pow2Sum(7, 5); Pow2Sum(12, 3);
    Pow2Sum(15, 5); Pow2Sum(20, 1); Pow2Sum(20, 5); Pow2Sum(21, 10);
    Pow2Sum(5, 5);
    assert Pow2(1) == 2 && Pow2(2) == 4;
  }

  /** a field below n bits of free space, in front of whatever stands above */
  lemma OrField(x: nat, y: nat, p: nat, k: nat)
    requires p == Pow2(k) && y < p
    ensures Or(x * p, y) == x * p + y
  {
    ModIs(x * p, p, x, 0);
    OrAdd(x * p, y, k);
  }

  /** the four low fields every format with rs1 shares */
  lemma LowFields(hi: nat, rs1: nat, f3: nat, rd: nat, op: nat)
    requires rs1 < 32 && f3 < 8 && rd < 32 && op < 128
    ensures Or(Or(Or(Or(hi * 0x10_0000, rs1 * 0x8000), f3 * 0x1000), rd * 0x80), op) ==
      hi * 0x10_0000 + rs1 * 0x8000 + f3 * 0x1000 + rd * 0x80 + op
  {
    FieldWidths();
    var h1 := hi * 32 + rs1;
    var h2 := h1 * 8 + f3;
    var h3 := h2 * 32 + rd;
    OrField(hi, rs1 * 0x8000, 0x10_0000, 20);
    OrField(h1, f3 * 0x1000, 0x8000, 15);
    OrField(h2, rd * 0x80, 0x1000, 12);
    OrField(h3, op, 0x80, 7);
    var o1 := Or(hi * 0x10_0000, rs1 * 0x8000);
    assert o1 == h1 * 0x8000;
    var o2 := Or(o1, f3 * 0x1000);
    assert o2 == h2 * 0x1000;
    var o3 := Or(o2, rd * 0x80);
    assert o3 == h3 * 0x80;
  }

  lemma RSum(f7: nat, rs2: nat, rs1: nat, f3: nat, rd: nat, op: nat)
    requires f7 < 128 && rs2 < 32 && rs1 < 32 && f3 < 8 && rd < 32 && op < 128
    ensures EncR(f7, rs2, rs1, f3, rd, op) ==
      f7 * 0x200_0000 + rs2 * 0x10_0000 + rs1 * 0x8000 + f3 * 0x1000 + rd * 0x80 + op
  {
    FieldWidths();
    OrField(f7, rs2 * 0x10_0000, 0x200_0000, 25);
    LowFields(f7 * 32 + rs2, rs1, f3, rd, op);
  }

  lemma ISum(op: nat, rd: nat, f3: nat, rs1: nat, imm: int)
    requires rs1 < 32 && f3 < 8 && rd < 32 && op < 128
    ensures EncI(op, rd, f3, rs1, imm) == imm % 0x1000 * 0x10_0000 + rs1 * 0x8000 + f3 * 0x1000 + rd * 0x80 + op
  {
    LowFields(imm % 0x1000, rs1, f3, rd, op);
  }

  lemma USum(op: nat, rd: nat, imm20: int)
    requires rd < 32 && op < 128
    ensures EncU(op, rd, imm20) == imm20 % 0x10_0000 * 0x1000 + rd * 0x80 + op
  {
    FieldWidths();
    OrField(imm20 % 0x10_0000, rd * 0x80, 0x1000, 12);
    OrField(imm20 % 0x10_0000 * 32 + rd, op, 0x80, 7);
  }

  lemma JSum(op: nat, rd: nat, imm: int)
    requires rd < 32 && op < 128
    ensures
      var u := imm % 0x1_0000_0000;
      EncJ(op, rd, imm) ==
        u / 0x10_0000 % 2 * 0x8000_0000 + u / 2 % 1024 * 0x20_0000 + u / 0x800 % 2 * 0x10_0000 +
          u / 0x1000 % 256 * 0x1000 + rd * 0x80 + op
  {
    FieldWidths();
    var u := imm % 0x1_0000_0000;
    JFields(u / 0x10_0000 % 2, u / 2 % 1024, u / 0x800 % 2, u / 0x1000 % 256, rd, op);
  }

  lemma JFields(a: nat, b: nat, c: nat, d: nat, rd: nat, op: nat)
    requires a < 2 && b < 1024 && c < 2 && d < 256 && rd < 32 && op < 128
    ensures Or6(a * 0x8000_0000, b * 0x20_0000, c * 0x10_0000, d * 0x1000, rd * 0x80, op) ==
      a * 0x8000_0000 + b * 0x20_0000 + c * 0x10_0000 + d * 0x1000 + rd * 0x80 + op
  {
    FieldWidths();
    var h1 := a * 1024 + b;
    var h2 := h1 * 2 + c;
    var h3 := h2 * 256 + d;
    OrField(a, b * 0x20_0000, 0x8000_0000, 31);
    OrField(h1, c * 0x10_0000, 0x20_0000, 21);
    OrField(h2, d * 0x1000, 0x10_0000, 20);
    OrField(h3, rd * 0x80, 0x1000, 12);
    OrField(h3 * 32 + rd, op, 0x80, 7);
    var o1 := Or(a * 0x8000_0000, b * 0x20_0000);
    assert o1 == h1 * 0x20_0000;
    var o2 := Or(o1, c * 0x10_0000);
    assert o2 == h2 * 0x10_0000;
    var o3 := Or(o2, d * 0x1000);
    assert o3 == h3 * 0x1000;
    var o4 := Or(o3, rd * 0x80);
    assert o4 == (h3 * 32 + rd) * 0x80;
  }

  lemma BHigh(a: nat, b: nat, rs2: nat)
    requires a < 2 && b < 64 && rs2 < 32
    ensures Or(Or(a * 0x8000_0000, b * 0x200_0000), rs2 * 0x10_0000) == ((a * 64 + b) * 32 + rs2) * 0x10_0000
  {
    FieldWidths();
    OrField(a, b * 0x200_0000, 0x8000_0000, 31);
    OrField(a * 64 + b, rs2 * 0x10_0000, 0x200_0000, 25);
  }

  lemma BFields(a: nat, b: nat, rs2: nat, rs1: nat, f3: nat, c: nat, d: nat, op: nat)
    requires a < 2 && b < 64 && rs2 < 32 && rs1 < 32 && f3 < 8 && c < 16 && d < 2 && op < 128
    ensures Or(Or(Or6(a * 0x8000_0000, b * 0x200_0000, rs2 * 0x10_0000, rs1 * 0x8000, f3 * 0x1000, c * 0x100),
      d * 0x80), op) ==
      a * 0x8000_0000 + b * 0x200_0000 + rs2 * 0x10_0000 + rs1 * 0x8000 + f3 * 0x1000 + c * 0x100 + d * 0x80 + op
  {
    BHigh(a, b, rs2);
    BLow((a * 64 + b) * 32 + rs2, rs1, f3, c, d, op);
  }

  lemma BLow(hi: nat, rs1: nat, f3: nat, c: nat, d: nat, op: nat)
    requires rs1 < 32 && f3 < 8 && c < 16 && d < 2 && op < 128
    ensures Or(Or(Or(Or(Or(hi * 0x10_0000, rs1 * 0x8000), f3 * 0x1000), c * 0x100), d * 0x80), op) ==
      hi * 0x10_0000 + rs1 * 0x8000 + f3 * 0x1000 + c * 0x100 + d * 0x80 + op
  {
    FieldWidths();
    var h1 := hi * 32 + rs1;
    var h2 := h1 * 8 + f3;
    var h3 := h2 * 16 + c;
    OrField(hi, rs1 * 0x8000, 0x10_0000, 20);
    OrField(h1, f3 * 0x1000, 0x8000, 15);
    OrField(h2, c * 0x100, 0x1000, 12);
    OrField(h3, d * 0x80, 0x100, 8);
    OrField(h3 * 2 + d, op, 0x80, 7);
    var o1 := Or(hi * 0x10_0000, rs1 * 0x8000);
    assert o1 == h1 * 0x8000;
    var o2 := Or(o1, f3 * 0x1000);
    assert o2 == h2 * 0x1000;
    var o3 := Or(o2, c * 0x100);
    assert o3 == h3 * 0x100;
    var o4 := Or(o3, d * 0x80);
    assert o4 == (h3 * 2 + d) * 0x80;
  }

  // ----- instructions -----

  /** funct7 and funct3 of the register operations */
  function RegFunct(f: RegOp): (nat, nat) {
    match f
    case Arith(Add) => (0, 0)
    case Arith(Sub) => (0x20, 0)
    case Arith(Mul) => (1, 0)
    case Arith(Div) => (1, 4)
    case Arith(Mod) => (1, 6)
    case Arith(BitAnd) => (0, 7)
    case Arith(BitOr) => (0, 6)
    case Arith(BitXor) => (0, 4)
    case Arith(Shl) => (0, 1)
    case Arith(Shr) => (0x20, 5)
    case SLT => (0, 2)
    case SLTU => (0, 3)
  }

  function ImmFunct(f: ImmOp): nat {
    match f
    case ADDI => 0
    case SLLI => 1
    case SLTIU => 3
    case XORI => 4
    case SRLI => 5
    case SRAI => 5
    case ORI => 6
    case ANDI => 7
    case ADDIW => 0
  }

  function WidthFunct(w: Width): nat { match w case Word => 2 case Double => 3 }

  /** the word the emitter appends for an instruction */
  function Encode(i: Instr): nat {
    match i
    case OpImm(f, rd, rs, imm) =>
      EncI(if f.ADDIW? then 0x1b else 0x13, rd, ImmFunct(f), rs, if f.SRAI? then 0x400 + imm else imm)
    case Op(f, rd, rs, rs2) => EncR(RegFunct(f).0, rs2, rs, RegFunct(f).1, rd, 0x33)
    case Lui(rd, imm) => EncU(0x37, rd, imm)
    case Load(w, rd, rs, imm) => EncI(0x03, rd, WidthFunct(w), rs, imm)
    case Store(w, rs2, rs, imm) => EncS(0x23, WidthFunct(w), rs, rs2, imm)
    case Branch(ne, rs, rs2, off) => EncB(0x63, if ne then 1 else 0, rs, rs2, off)
    case Jal(rd, off) => EncJ(0x6f, rd, off)
    case Jalr(rd, rs, imm) => EncI(0x67, rd, 0, rs, imm)
  }

  predicate Imm12(imm: int) { -2048 <= imm < 2048 }

  /** every field fits */
  predicate Legal(i: Instr) {
    RegsOk(i) &&
    match i
    case OpImm(f, _, _, imm) => if f.SLLI? || f.SRLI? || f.SRAI? then 0 <= imm < 64 else Imm12(imm)
    case Op(_, _, _, _) => true
    case Lui(_, imm) => -0x8_0000 <= imm < 0x8_0000
    case Load(_, _, _, imm) => Imm12(imm)
    case Store(_, _, _, imm) => Imm12(imm)
    case Branch(_, _, _, off) => -0x1000 <= off < 0x1000 && off % 2 == 0
    case Jal(_, off) => -0x10_0000 <= off < 0x10_0000 && off % 2 == 0
    case Jalr(_, _, imm) => Imm12(imm)
  }

  // ----- the decoder -----

  /** an n-bit field, with m == 2^n, as a signed number */
  function Sext(v: nat, m: nat): int { if 2 * v < m then v else v - m }

  function OpOf(w: nat): nat { w % 0x80 }
  function RdOf(w: nat): nat { w / 0x80 % 32 }
  function F3Of(w: nat): nat { w / 0x1000 % 8 }
  function Rs1Of(w: nat): nat { w / 0x8000 % 32 }
  function Rs2Of(w: nat): nat { w / 0x10_0000 % 32 }
  function F7Of(w: nat): nat { w / 0x200_0000 % 128 }
  function ImmI(w: nat): int { Sext(w / 0x10_0000 % 0x1000, 0x1000) }
  function ImmS(w: nat): int { Sext(F7Of(w) * 32 + RdOf(w), 0x1000) }
  function ImmB(w: nat): int {
    Sext(w / 0x8000_0000 % 2 * 0x1000 + w / 0x80 % 2 * 0x800 + w / 0x200_0000 % 64 * 32 + w / 0x100 % 16 * 2, 0x2000)
  }
  function ImmU(w: nat): int { Sext(w / 0x1000 % 0x10_0000, 0x10_0000) }
  function ImmJ(w: nat): int {
    Sext(w / 0x8000_0000 % 2 * 0x10_0000 + w / 0x1000 % 256 * 0x1000 + w / 0x10_0000 % 2 * 0x800 +
      w / 0x20_0000 % 1024 * 2, 0x20_0000)
  }

  function DecodeImmOp(w: nat): Option<Instr> {
    var f3, hi, imm := F3Of(w), w / 0x10_0000 % 0x1000 / 64, ImmI(w);
    var sh := w / 0x10_0000 % 64;
    if f3 == 1 then (if hi == 0 then Some(OpImm(SLLI, RdOf(w), Rs1Of(w), sh)) else None)
    else if f3 == 5 then
      (if hi == 0 then Some(OpImm(SRLI, RdOf(w), Rs1Of(w), sh))
       else if hi == 16 then Some(OpImm(SRAI, RdOf(w), Rs1Of(w), sh)) else None)
    else if f3 == 0 then Some(OpImm(ADDI, RdOf(w), Rs1Of(w), imm))
    else if f3 == 3 then Some(OpImm(SLTIU, RdOf(w), Rs1Of(w), imm))
    else if f3 == 4 then Some(OpImm(XORI, RdOf(w), Rs1Of(w), imm))
    else if f3 == 6 then Some(OpImm(ORI, RdOf(w), Rs1Of(w), imm))
    else if f3 == 7 then Some(OpImm(ANDI, RdOf(w), Rs1Of(w), imm))
    else None
  }

  function DecodeReg(f7: nat, f3: nat): Option<RegOp> {
    if f7 == 0 then
      (match f3
       case 0 => Some(Arith(Add))
       case 1 => Some(Arith(Shl))
       case 2 => Some(SLT)
       case 3 => Some(SLTU)
       case 4 => Some(Arith(BitXor))
       case 6 => Some(Arith(BitOr))
       case 7 => Some(Arith(BitAnd))
       case _ => None)
    else if f7 == 0x20 then (if f3 == 0 then Some(Arith(Sub)) else if f3 == 5 then Some(Arith(Shr)) else None)
    else if f7 == 1 then
      (if f3 == 0 then Some(Arith(Mul))
       else if f3 == 4 then Some(Arith(Div))
       else if f3 == 6 then Some(Arith(Mod))
       else None)
    else None
  }

  function DecodeWidth(f3: nat): Option<Width>
  {
    if f3 == 2 then Some(Word) else if f3 == 3 then Some(Double) else None
  }

  function Decode(w: nat): Option<Instr> {
    match OpOf(w)
    case 0x13 => DecodeImmOp(w)
    case 0x1b => if F3Of(w) == 0 then Some(OpImm(ADDIW, RdOf(w), Rs1Of(w), ImmI(w))) else None
    case 0x33 =>
      (match DecodeReg(F7Of(w), F3Of(w))
       case Some(f) => Some(Op(f, RdOf(w), Rs1Of(w), Rs2Of(w)))
       case None => None)
    case 0x37 => Some(Lui(RdOf(w), ImmU(w)))
    case 0x03 =>
      (match DecodeWidth(F3Of(w))
       case Some(wd) => Some(Load(wd, RdOf(w), Rs1Of(w), ImmI(w)))
       case None => None)
    case 0x23 =>
      (match DecodeWidth(F3Of(w))
       case Some(wd) => Some(Store(wd, Rs2Of(w), Rs1Of(w), ImmS(w)))
       case None => None)
    case 0x63 => if F3Of(w) <= 1 then Some(Branch(F3Of(w) == 1, Rs1Of(w), Rs2Of(w), ImmB(w))) else None
    case 0x6f => Some(Jal(RdOf(w), ImmJ(w)))
    case 0x67 => if F3Of(w) == 0 then Some(Jalr(RdOf(w), Rs1Of(w), ImmI(w))) else None
    case _ => None
  }

  // ----- the decoder inverts the encoders -----

  /** reading a field: what stands above it, and what below */
  lemma Field(w: nat, hi: nat, low: nat, p: nat)
    requires p > 0 && low < p && w == hi * p + low
    ensures w / p == hi && w % p == low
  {
    ModIs(w, p, hi, low);
  }

  lemma LowRead(w: nat, hi: nat, rs1: nat, f3: nat, rd: nat, op: nat)
    requires rs1 < 32 && f3 < 8 && rd < 32 && op < 128
    requires w == hi * 0x10_0000 + rs1 * 0x8000 + f3 * 0x1000 + rd * 0x80 + op
    ensures OpOf(w) == op && RdOf(w) == rd && F3Of(w) == f3 && Rs1Of(w) == rs1 && w / 0x10_0000 == hi
  {
    var h1 := hi * 32 + rs1;
    var h2 := h1 * 8 + f3;
    Field(w, h2 * 32 + rd, op, 0x80);
    Field(w, h2, rd * 0x80 + op, 0x1000);
    Field(w, h1, f3 * 0x1000 + rd * 0x80 + op, 0x8000);
    Field(w, hi, rs1 * 0x8000 + f3 * 0x1000 + rd * 0x80 + op, 0x10_0000);
    Field(h2 * 32 + rd, h2, rd, 32);
    Field(h2, h1, f3, 8);
    Field(h1, hi, rs1, 32);
  }

  /** a field cut to its width and read back as a signed number */
  lemma SextMod(v: int, m: nat)
    requires m > 0 && m % 2 == 0 && 0 - m <= 2 * v < m
    ensures Sext(v % m, m) == v
  {
    if v < 0 { ModIs(v, m, -1, v + m); } else { ModIs(v, m, 0, v); }
  }

  lemma IRead(op: nat, rd: nat, f3: nat, rs1: nat, imm: int)
    requires rs1 < 32 && f3 < 8 && rd < 32 && op < 128
    ensures
      var w := EncI(op, rd, f3, rs1, imm);
      OpOf(w) == op && RdOf(w) == rd && F3Of(w) == f3 && Rs1Of(w) == rs1 && w / 0x10_0000 == imm % 0x1000
    ensures Imm12(imm) ==> ImmI(EncI(op, rd, f3, rs1, imm)) == imm
  {
    var w := EncI(op, rd, f3, rs1, imm);
    ISum(op, rd, f3, rs1, imm);
    LowRead(w, imm % 0x1000, rs1, f3, rd, op);
    Field(imm % 0x1000, 0, imm % 0x1000, 0x1000);
    if Imm12(imm) { SextMod(imm, 0x1000); }
  }

  lemma RRead(f7: nat, rs2: nat, rs1: nat, f3: nat, rd: nat, op: nat)
    requires f7 < 128 && rs2 < 32 && rs1 < 32 && f3 < 8 && rd < 32 && op < 128
    ensures
      var w := EncR(f7, rs2, rs1, f3, rd, op);
      OpOf(w) == op && RdOf(w) == rd && F3Of(w) == f3 && Rs1Of(w) == rs1 && Rs2Of(w) == rs2 && F7Of(w) == f7
  {
    RSum(f7, rs2, rs1, f3, rd, op);
    var w := EncR(f7, rs2, rs1, f3, rd, op);
    LowRead(w, f7 * 32 + rs2, rs1, f3, rd, op);
    Field(f7 * 32 + rs2, f7, rs2, 32);
    Field(w, f7, w - f7 * 0x200_0000, 0x200_0000);
    Field(f7, 0, f7, 128);
  }

  lemma SRead(op: nat, f3: nat, rs1: nat, rs2: nat, imm: int)
    requires rs2 < 32 && rs1 < 32 && f3 < 8 && op < 128 && Imm12(imm)
    ensures
      var w := EncS(op, f3, rs1, rs2, imm);
      OpOf(w) == op && F3Of(w) == f3 && Rs1Of(w) == rs1 && Rs2Of(w) == rs2 && ImmS(w) == imm
  {
    var u := imm % 0x1000;
    SextMod(imm, 0x1000);
    SFields(op, f3, rs1, rs2, imm, u, u / 32, u % 32);
  }

  lemma SFields(op: nat, f3: nat, rs1: nat, rs2: nat, imm: int, u: nat, hi: nat, lo: nat)
    requires rs2 < 32 && rs1 < 32 && f3 < 8 && op < 128 && u == imm % 0x1000 && hi == u / 32 && lo == u % 32
    ensures
      var w := EncS(op, f3, rs1, rs2, imm);
      OpOf(w) == op && F3Of(w) == f3 && Rs1Of(w) == rs1 && Rs2Of(w) == rs2 && F7Of(w) * 32 + RdOf(w) == u
  {
    RRead(hi, rs2, rs1, f3, lo, op);
    assert EncS(op, f3, rs1, rs2, imm) == EncR(hi, rs2, rs1, f3, lo, op);
  }

  lemma URead(op: nat, rd: nat, imm: int)
    requires rd < 32 && op < 128 && -0x8_0000 <= imm < 0x8_0000
    ensures var w := EncU(op, rd, imm); OpOf(w) == op && RdOf(w) == rd && ImmU(w) == imm
  {
    var u, w := imm % 0x10_0000, EncU(op, rd, imm);
    USum(op, rd, imm);
    Field(w, u * 32 + rd, op, 0x80);
    Field(u * 32 + rd, u, rd, 32);
    Field(w, u, rd * 0x80 + op, 0x1000);
    Field(u, 0, u, 0x10_0000);
    SextMod(imm, 0x10_0000);
  }

  lemma JRead(op: nat, rd: nat, imm: int)
    requires rd < 32 && op < 128 && -0x10_0000 <= imm < 0x10_0000 && imm % 2 == 0
    ensures var w := EncJ(op, rd, imm); OpOf(w) == op && RdOf(w) == rd && ImmJ(w) == imm
  {
    var u := imm % 0x1_0000_0000;
    JSum(op, rd, imm);
    JParts(EncJ(op, rd, imm), u / 0x10_0000 % 2, u / 2 % 1024, u / 0x800 % 2, u / 0x1000 % 256, rd, op);
    JWhole(imm, u);
  }

  lemma JParts(w: nat, a: nat, b: nat, c: nat, d: nat, rd: nat, op: nat)
    requires a < 2 && b < 1024 && c < 2 && d < 256 && rd < 32 && op < 128
    requires w == a * 0x8000_0000 + b * 0x20_0000 + c * 0x10_0000 + d * 0x1000 + rd * 0x80 + op
    ensures OpOf(w) == op && RdOf(w) == rd && w / 0x8000_0000 % 2 == a && w / 0x20_0000 % 1024 == b
    ensures w / 0x10_0000 % 2 == c && w / 0x1000 % 256 == d
  {
    var h1 := a * 1024 + b;
    var h2 := h1 * 2 + c;
    var h3 := h2 * 256 + d;
    Field(w, h3 * 32 + rd, op, 0x80);
    Field(h3 * 32 + rd, h3, rd, 32);
    Field(w, h3, rd * 0x80 + op, 0x1000);
    Field(h3, h2, d, 256);
    Field(w, h2, d * 0x1000 + rd * 0x80 + op, 0x10_0000);
    Field(h2, h1, c, 2);
    Field(w, h1, c * 0x10_0000 + d * 0x1000 + rd * 0x80 + op, 0x20_0000);
    Field(h1, a, b, 1024);
    Field(w, a, b * 0x20_0000 + c * 0x10_0000 + d * 0x1000 + rd * 0x80 + op, 0x8000_0000);
  }

  lemma TimesMono(a: nat, b: nat, p: nat)
    requires a <= b
    ensures a * p <= b * p
  {
  }

  lemma ChopParts(u: nat, h: nat, m: nat, p: nat, q: nat, x: nat, y: nat)
    requires p > 0 && q > 0 && m == p * q && u == h * m + (x * p + y) && x * p + y < m && y < p
    ensures x == u / p % q
  {
    if x >= q { TimesMono(q, x, p); }
    Regroup(u, h, q, p, x, y);
    Field(u, h * q + x, y, p);
    Field(h * q + x, h, x, q);
  }

  /** dividing the low part, or taking the low part of the quotient */
  lemma Chop(u: nat, m: nat, p: nat, q: nat)
    requires p > 0 && q > 0 && m == p * q
    ensures (u % m) / p == u / p % q
  {
    var h, l := u / m, u % m;
    var x, y := l / p, l % p;
    assert u == h * m + l;
    assert l == x * p + y;
    ChopParts(u, h, m, p, q, x, y);
  }

  lemma ModMod(x: nat, m: nat, k: nat)
    requires m > 0 && k > 0
    ensures m * k > 0 && x % (m * k) % m == x % m
  {
    TimesMono(1, k, m);
    var h, l := x / (m * k), x % (m * k);
    var q, r := l / m, l % m;
    assert l == q * m + r;
    Regroup(x, h, k, m, q, r);
    Field(x, h * k + q, r, m);
  }

  lemma Regroup(x: nat, h: nat, k: nat, m: nat, q: nat, r: nat)
    requires x == h * (m * k) + (q * m + r)
    ensures x == (h * k + q) * m + r
  {
  }

  lemma Split4(v: nat, h1: nat, h2: nat, h3: nat)
    requires v < 0x20_0000 && v % 2 == 0 && h1 == v / 2 && h2 == v / 0x800 && h3 == v / 0x1000
    ensures v / 0x10_0000 * 0x10_0000 + h3 % 256 * 0x1000 + h2 % 2 * 0x800 + h1 % 1024 * 2 == v
  {
    assert h2 == h1 / 1024 by { Chop(v, 0x20_0000, 2, 0x10_0000); }
    assert h3 == h2 / 2;
    assert v / 0x10_0000 == h3 / 256;
  }

  lemma SplitB(v: nat)
    requires v < 0x2000 && v % 2 == 0
    ensures v / 0x1000 * 0x1000 + v / 0x800 % 2 * 0x800 + v / 32 % 64 * 32 + v / 2 % 16 * 2 == v
  {
    var h1 := v / 2;
    var h2 := h1 / 16;
    var h3 := h2 / 64;
    assert v / 32 == h2 && v / 0x800 == h3 && v / 0x1000 == h3 / 2;
  }

  lemma JWhole(imm: int, u: nat)
    requires -0x10_0000 <= imm < 0x10_0000 && imm % 2 == 0 && u == imm % 0x1_0000_0000
    ensures Sext(u / 0x10_0000 % 2 * 0x10_0000 + u / 0x1000 % 256 * 0x1000 + u / 0x800 % 2 * 0x800 + u / 2 % 1024 * 2,
      0x20_0000) == imm
  {
    var v := u % 0x20_0000;
    assert Sext(v, 0x20_0000) == imm;
    Chop(u, 0x20_0000, 0x10_0000, 2);
    var h1 := v / 2;
    var h2 := v / 0x800;
    var h3 := v / 0x1000;
    assert u / 2 % 1024 == h1 % 1024 by { Chop(u, 0x20_0000, 2, 0x10_0000); ModMod(u / 2, 1024, 1024); }
    assert u / 0x800 % 2 == h2 % 2 by { Chop(u, 0x20_0000, 0x800, 1024); ModMod(u / 0x800, 2, 512); }
    assert u / 0x1000 % 256 == h3 % 256 by { Chop(u, 0x20_0000, 0x1000, 512); ModMod(u / 0x1000, 256, 2); }
    Split4(v, h1, h2, h3);
  }

  lemma BRead(op: nat, f3: nat, rs1: nat, rs2: nat, imm: int)
    requires rs2 < 32 && rs1 < 32 && f3 < 8 && op < 128 && -0x1000 <= imm < 0x1000 && imm % 2 == 0
    ensures
      var w := EncB(op, f3, rs1, rs2, imm);
      OpOf(w) == op && F3Of(w) == f3 && Rs1Of(w) == rs1 && Rs2Of(w) == rs2 && ImmB(w) == imm
  {
    var u := imm % 0x1_0000_0000;
    var a, b, c, d := u / 0x1000 % 2, u / 32 % 64, u / 2 % 16, u / 0x800 % 2;
    BFields(a, b, rs2, rs1, f3, c, d, op);
    BParts(EncB(op, f3, rs1, rs2, imm), a, b, rs2, rs1, f3, c, d, op);
    BWhole(imm, u);
  }

  lemma BParts(w: nat, a: nat, b: nat, rs2: nat, rs1: nat, f3: nat, c: nat, d: nat, op: nat)
    requires a < 2 && b < 64 && rs2 < 32 && rs1 < 32 && f3 < 8 && c < 16 && d < 2 && op < 128
    requires w ==
      a * 0x8000_0000 + b * 0x200_0000 + rs2 * 0x10_0000 + rs1 * 0x8000 + f3 * 0x1000 + c * 0x100 + d * 0x80 + op
    ensures OpOf(w) == op && F3Of(w) == f3 && Rs1Of(w) == rs1 && Rs2Of(w) == rs2
    ensures w / 0x8000_0000 % 2 == a && w / 0x200_0000 % 64 == b && w / 0x100 % 16 == c && w / 0x80 % 2 == d
  {
    var h1 := a * 64 + b;
    var h2 := h1 * 32 + rs2;
    LowRead(w, h2, rs1, f3, c * 2 + d, op);
    Field(h2, h1, rs2, 32);
    Field(w, h1, w - h1 * 0x200_0000, 0x200_0000);
    Field(h1, a, b, 64);
    Field(w, a, w - a * 0x8000_0000, 0x8000_0000);
    BMiddle(w, (h2 * 32 + rs1) * 8 + f3, c, d, op);
  }

  lemma BMiddle(w: nat, h: nat, c: nat, d: nat, op: nat)
    requires c < 16 && d < 2 && op < 128 && w == h * 0x1000 + c * 0x100 + d * 0x80 + op
    ensures w / 0x100 % 16 == c && w / 0x80 % 2 == d
  {
    Field(w, h * 16 + c, d * 0x80 + op, 0x100);
    Field(h * 16 + c, h, c, 16);
    Field(w, (h * 16 + c) * 2 + d, op, 0x80);
    Field((h * 16 + c) * 2 + d, h * 16 + c, d, 2);
  }

  lemma BWhole(imm: int, u: nat)
    requires -0x1000 <= imm < 0x1000 && imm % 2 == 0 && u == imm % 0x1_0000_0000
    ensures Sext(u / 0x1000 % 2 * 0x1000 + u / 0x800 % 2 * 0x800 + u / 32 % 64 * 32 + u / 2 % 16 * 2, 0x2000) == imm
  {
    var v := u % 0x2000;
    BSigned(imm, u);
    BLowBits(u, v);
    SplitB(v);
  }

  lemma BSigned(imm: int, u: nat)
    requires -0x1000 <= imm < 0x1000 && u == imm % 0x1_0000_0000
    ensures Sext(u % 0x2000, 0x2000) == imm
  {
    if imm >= 0 { ModIs(u, 0x2000, 0, imm); } else { ModIs(u, 0x2000, 0x7_ffff, imm + 0x2000); }
  }

  /** the fields of a branch offset lie in its low 13 bits */
  lemma BLowBits(u: nat, v: nat)
    requires v == u % 0x2000
    ensures u / 0x1000 % 2 == v / 0x1000 && u / 2 % 16 == v / 2 % 16
    ensures u / 32 % 64 == v / 32 % 64 && u / 0x800 % 2 == v / 0x800 % 2
  {
    Chop(u, 0x2000, 0x1000, 2);
    assert u / 2 % 16 == v / 2 % 16 by {
      Chop(u, 0x2000, 2, 0x1000);
      ModMod(u / 2, 16, 0x100);
    }
    assert u / 32 % 64 == v / 32 % 64 by {
      Chop(u, 0x2000, 32, 0x100);
      ModMod(u / 32, 64, 4);
    }
    assert u / 0x800 % 2 == v / 0x800 % 2 by {
      Chop(u, 0x2000, 0x800, 4);
      ModMod(u / 0x800, 2, 2);
    }
  }

  /** Decoding what the emitter encodes gives the instruction back. */
  lemma RoundTrip(i: Instr)
    requires Legal(i)
    ensures Decode(Encode(i)) == Some(i)
  {
    match i
    case OpImm(f, rd, rs, imm) => OpImmRoundTrip(f, rd, rs, imm);
    case Op(f, rd, rs, rs2) => OpRoundTrip(f, rd, rs, rs2);
    case Lui(rd, imm) => URead(0x37, rd, imm);
    case Load(w, rd, rs, imm) => IRead(0x03, rd, WidthFunct(w), rs, imm);
    case Store(w, rs2, rs, imm) => SRead(0x23, WidthFunct(w), rs, rs2, imm);
    case Branch(ne, rs, rs2, off) => BRead(0x63, if ne then 1 else 0, rs, rs2, off);
    case Jal(rd, off) => JalRoundTrip(rd, off);
    case Jalr(rd, rs, imm) => IRead(0x67, rd, 0, rs, imm);
  }

  lemma JalRoundTrip(rd: nat, off: int)
    requires Legal(Jal(rd, off))
    ensures Decode(Encode(Jal(rd, off))) == Some(Jal(rd, off))
  {
    JRead(0x6f, rd, off);
  }

  lemma OpRoundTrip(f: RegOp, rd: nat, rs: nat, rs2: nat)
    requires rd < 32 && rs < 32 && rs2 < 32
    ensures Decode(Encode(Op(f, rd, rs, rs2))) == Some(Op(f, rd, rs, rs2))
  {
    var (f7, f3) := RegFunct(f);
    RRead(f7, rs2, rs, f3, rd, 0x33);
    FunctDecodes(f);
  }

  lemma FunctDecodes(f: RegOp)
    ensures DecodeReg(RegFunct(f).0, RegFunct(f).1) == Some(f)
  {
  }

  lemma OpImmRoundTrip(f: ImmOp, rd: nat, rs: nat, imm: int)
    requires Legal(OpImm(f, rd, rs, imm))
    ensures Decode(Encode(OpImm(f, rd, rs, imm))) == Some(OpImm(f, rd, rs, imm))
  {
    if f.SLLI? || f.SRLI? || f.SRAI? {
      ShiftFields(f, rd, rs, imm);
      ShiftRoundTrip(f, rd, rs, imm, Encode(OpImm(f, rd, rs, imm)));
    } else {
      IRead(if f.ADDIW? then 0x1b else 0x13, rd, ImmFunct(f), rs, imm);
    }
  }

  lemma ShiftField(v: nat, top: nat, imm: nat)
    requires imm < 64 && top < 32 && v == top * 64 + imm
    ensures v % 0x1000 == v && v / 64 == top && v % 64 == imm
  {
    Field(v, top, imm, 64);
  }

  lemma ShiftFields(f: ImmOp, rd: nat, rs: nat, imm: nat)
    requires (f.SLLI? || f.SRLI? || f.SRAI?) && rd < 32 && rs < 32 && imm < 64
    ensures
      var w := Encode(OpImm(f, rd, rs, imm));
      && OpOf(w) == 0x13 && RdOf(w) == rd && Rs1Of(w) == rs && F3Of(w) == ImmFunct(f)
      && w / 0x10_0000 % 0x1000 / 64 == (if f.SRAI? then 16 else 0) && w / 0x10_0000 % 64 == imm
  {
    var top := if f.SRAI? then 16 else 0;
    var v := top * 64 + imm;
    ShiftField(v, top, imm);
    IRead(0x13, rd, ImmFunct(f), rs, v);
    assert Encode(OpImm(f, rd, rs, imm)) == EncI(0x13, rd, ImmFunct(f), rs, v);
  }

  lemma ShiftRoundTrip(f: ImmOp, rd: nat, rs: nat, imm: nat, w: nat)
    requires (f.SLLI? || f.SRLI? || f.SRAI?) && OpOf(w) == 0x13 && RdOf(w) == rd && Rs1Of(w) == rs
    requires F3Of(w) == ImmFunct(f)
    requires w / 0x10_0000 % 0x1000 / 64 == (if f.SRAI? then 16 else 0) && w / 0x10_0000 % 64 == imm
    ensures Decode(w) == Some(OpImm(f, rd, rs, imm))
  {
  }
}
