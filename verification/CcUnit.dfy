/** Translation units as the compiler hands them to the linker: code and data
    bytes, symbols, relocations; and the little-endian numbers in them. */
module CcUnit {
  import opened RvArith
  import opened Bytes

  type bytes = seq<byte>

  const SEC_TEXT: nat := 0
  const SEC_DATA: nat := 1
  const SEC_BSS: nat := 2

  const R_HI20: nat := 0
  const R_LO12I: nat := 1
  const R_JAL: nat := 2

  /** a pointer to sym + addend at an offset inside a symbol's data; addends are
      64-bit patterns */
  datatype DataReloc = DataReloc(offset: nat, sym: nat, addend: nat)

  /** symbols are named by their index in the unit's list */
  datatype Sym = Sym(
    name: bytes, sec: nat, offset: nat, size: nat, align: nat,
    defined: bool, isStatic: bool, drel: seq<DataReloc>)

  /** pos is a byte position in the unit's code */
  datatype Reloc = Reloc(pos: nat, kind: nat, sym: nat, addend: nat)

  datatype Unit = Unit(code: bytes, data: bytes, bssLen: nat, syms: seq<Sym>, relocs: seq<Reloc>)

  // ----- numbers as bytes -----

  function U32(v: nat): (b: bytes)
    requires v < M32
    ensures |b| == 4
  {
    [v % 0x100, v / 0x100 % 0x100, v / 0x1_0000 % 0x100, v / 0x100_0000]
  }

  function U64(v: nat): (b: bytes)
    requires v < M64
    ensures |b| == 8
  {
    U32(v % M32) + U32(v / M32)
  }

  /** the number four bytes stand for */
  function Number(a: byte, b: byte, c: byte, d: byte): (v: nat)
    ensures v < M32
  {
    a as int + b as int * 0x100 + c as int * 0x1_0000 + d as int * 0x100_0000
  }

  lemma Digits(v: nat)
    requires v < M32
    ensures var b := U32(v); Number(b[0], b[1], b[2], b[3]) == v
  {
    var a := v / 0x100;
    var b := a / 0x100;
    assert v / 0x1_0000 == b && v / 0x100_0000 == b / 0x100;
  }

  /** four bytes read and written the lowest first */
  lemma NumberValue(a: byte, b: byte, c: byte, d: byte)
    ensures Number(a, b, c, d) == LittleEndian([a, b, c, d])
  {
    assert [a, b, c, d][1..] == [b, c, d] && [b, c, d][1..] == [c, d] && [c, d][1..] == [d] && [d][1..] == [];
    assert LittleEndian([d]) == d as int + 0x100 * LittleEndian([]) == d as int;
    assert LittleEndian([c, d]) == c as int + 0x100 * LittleEndian([d]);
    assert LittleEndian([b, c, d]) == b as int + 0x100 * LittleEndian([c, d]);
  }

  lemma U32Value(v: nat)
    requires v < M32
    ensures LittleEndian(U32(v)) == v
  {
    var b := U32(v);
    Digits(v);
    NumberValue(b[0], b[1], b[2], b[3]);
    assert b == [b[0], b[1], b[2], b[3]];
  }

  lemma U64Value(v: nat)
    requires v < M64
    ensures LittleEndian(U64(v)) == v
  {
    U32Value(v % M32);
    U32Value(v / M32);
    ValueJoin(U32(v % M32), U32(v / M32));
    assert Pow256(1) == 0x100 && Pow256(2) == 0x1_0000 && Pow256(3) == 0x100_0000 && Pow256(4) == M32;
  }

  // ----- words in the code -----

  /** the instruction word at a byte position */
  function WordAt(code: bytes, pos: nat): (w: nat)
    requires pos + 4 <= |code|
    ensures w < M32
  {
    Number(code[pos], code[pos + 1], code[pos + 2], code[pos + 3])
  }

  /** put_ins */
  function PutIns(code: bytes, pos: nat, ins: nat): (r: bytes)
    requires pos + 4 <= |code|
    ensures |r| == |code|
  {
    code[..pos] + U32(ins % M32) + code[pos + 4..]
  }

  /** put_ins changes one word and no other byte */
  lemma PutInsReads(code: bytes, pos: nat, ins: nat)
    requires pos + 4 <= |code|
    ensures WordAt(PutIns(code, pos, ins), pos) == ins % M32
    ensures forall k | 0 <= k < |code| && !(pos <= k < pos + 4) :: PutIns(code, pos, ins)[k] == code[k]
  {
    Digits(ins % M32);
  }

  lemma SameWord(code: bytes, code': bytes, pos: nat)
    requires pos + 4 <= |code| == |code'| && forall k | pos <= k < pos + 4 :: code'[k] == code[k]
    ensures WordAt(code', pos) == WordAt(code, pos)
  {
  }

  /** a word determines its bytes */
  lemma WordBytes(code: bytes, code': bytes, pos: nat)
    requires pos + 4 <= |code| == |code'| && WordAt(code', pos) == WordAt(code, pos)
    ensures forall k | pos <= k < pos + 4 :: code'[k] == code[k]
  {
    DigitsUnique(code[pos], code[pos + 1], code[pos + 2], code[pos + 3],
                 code'[pos], code'[pos + 1], code'[pos + 2], code'[pos + 3]);
  }

  lemma DigitsUnique(a: byte, b: byte, c: byte, d: byte, a': byte, b': byte, c': byte, d': byte)
    requires Number(a, b, c, d) == Number(a', b', c', d')
    ensures a == a' && b == b' && c == c' && d == d'
  {
    var x, x' :=
      b as int + c as int * 0x100 + d as int * 0x1_0000, b' as int + c' as int * 0x100 + d' as int * 0x1_0000;
    ModIs(a as int + x * 0x100, 0x100, x, a as int);
    ModIs(a' as int + x' * 0x100, 0x100, x', a' as int);
    var y, y' := c as int + d as int * 0x100, c' as int + d' as int * 0x100;
    ModIs(b as int + y * 0x100, 0x100, y, b as int);
    ModIs(b' as int + y' * 0x100, 0x100, y', b' as int);
  }

  method PutInsInPlace(buf: array<byte>, pos: nat, ins: nat)
    requires pos + 4 <= buf.Length
    modifies buf
    ensures buf[..] == PutIns(old(buf[..]), pos, ins)
  {
    var b := U32(ins % M32);
    buf[pos] := b[0];
    buf[pos + 1] := b[1];
    buf[pos + 2] := b[2];
    buf[pos + 3] := b[3];
    assert buf[..] == old(buf[..])[..pos] + b + old(buf[..])[pos + 4..];
  }

  // ----- lists turned round -----

  function Reversed<T>(s: seq<T>): (r: seq<T>)
    ensures |r| == |s| && forall i | 0 <= i < |s| :: r[i] == s[|s| - 1 - i]
  {
    if s == [] then [] else Reversed(s[1..]) + [s[0]]
  }

  lemma ReversedSnoc<T>(s: seq<T>, x: T)
    ensures Reversed(s + [x]) == [x] + Reversed(s)
  {
  }
}
