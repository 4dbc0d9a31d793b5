/** Object files: write_object, read_object, and the round trip between them. */
module CcObject {
  import opened Options
  import opened RvArith
  import opened Bytes
  import opened CcUnit

  // ----- numbers -----

  function U8(b: bool): (r: bytes)
    ensures |r| == 1
  {
    [if b then 1 else 0]
  }

  /** a value and the input that is left */
  datatype Parsed<T> = Fail | Got(v: T, rest: bytes)

  function RdU8(s: bytes): Parsed<byte> { if s == [] then Fail else Got(s[0], s[1..]) }

  function RdU32(s: bytes): (r: Parsed<nat>)
    ensures r.Got? ==> r.v < M32
  {
    if |s| < 4 then Fail else Got(Number(s[0], s[1], s[2], s[3]), s[4..])
  }

  function RdU64(s: bytes): (r: Parsed<nat>)
    ensures r.Got? ==> r.v < M64
  {
    match RdU32(s)
    case Fail => Fail
    case Got(lo, s1) =>
      match RdU32(s1)
      case Fail => Fail
      case Got(hi, s2) => Got(lo + hi * M32, s2)
  }

  /** lengths are C ints: the upper half of the range reads as negative */
  function RdBytes(s: bytes, n: nat): Parsed<bytes> {
    if n >= 0x8000_0000 || n > |s| then Fail else Got(s[..n], s[n..])
  }

  lemma U32Back(v: nat, rest: bytes)
    requires v < M32
    ensures RdU32(U32(v) + rest) == Got(v, rest)
  {
    var s := U32(v) + rest;
    assert s[4..] == rest;
    Digits(v);
  }

  lemma U64Back(v: nat, rest: bytes)
    requires v < M64
    ensures RdU64(U64(v) + rest) == Got(v, rest)
  {
    var lo, hi := v % M32, v / M32;
    assert U64(v) + rest == U32(lo) + (U32(hi) + rest);
    U32Back(lo, U32(hi) + rest);
    U32Back(hi, rest);
  }

  lemma U8Back(b: bool, rest: bytes)
    ensures RdU8(U8(b) + rest) == Got(if b then 1 else 0, rest)
  {
    assert (U8(b) + rest)[1..] == rest;
  }

  lemma BytesBack(b: bytes, rest: bytes)
    requires |b| < 0x8000_0000
    ensures RdBytes(b + rest, |b|) == Got(b, rest)
  {
    assert (b + rest)[..|b|] == b && (b + rest)[|b|..] == rest;
  }

  // ----- lists of records -----

  function WriteList<T>(xs: seq<T>, w: T -> bytes): bytes {
    if xs == [] then [] else w(xs[0]) + WriteList(xs[1..], w)
  }

  function ReadList<T>(n: nat, s: bytes, r: bytes -> Parsed<T>): Parsed<seq<T>> {
    if n == 0 then Got([], s)
    else
      match r(s)
      case Fail => Fail
      case Got(x, s1) =>
        match ReadList(n - 1, s1, r)
        case Fail => Fail
        case Got(xs, s2) => Got([x] + xs, s2)
  }

  /** reading what was written for x gives y, whatever follows */
  ghost predicate Back<T(!new), U(!new)>(w: T -> bytes, r: bytes -> Parsed<U>, x: T, y: U) {
    forall rest: bytes {:trigger w(x) + rest} :: r(w(x) + rest) == Got(y, rest)
  }

  lemma {:induction false} ListBack<T(!new), U(!new)>(
        xs: seq<T>, ys: seq<U>, w: T -> bytes, r: bytes -> Parsed<U>, rest: bytes)
    requires |xs| == |ys| && forall i | 0 <= i < |xs| :: Back(w, r, xs[i], ys[i])
    ensures ReadList(|xs|, WriteList(xs, w) + rest, r) == Got(ys, rest)
    decreases |xs|
  {
    if xs == [] {
      assert [] + rest == rest;
    } else {
      var more := WriteList(xs[1..], w) + rest;
      assert WriteList(xs, w) + rest == w(xs[0]) + more;
      assert Back(w, r, xs[0], ys[0]);
      ListBack(xs[1..], ys[1..], w, r, rest);
      assert [ys[0]] + ys[1..] == ys;
    }
  }

  // ----- records -----

  function WrName(name: bytes): bytes
    requires |name| < 0x8000_0000
  {
    U32(|name|) + name
  }

  function RdName(s: bytes): Parsed<bytes> {
    match RdU32(s) case Fail => Fail case Got(n, s1) => RdBytes(s1, n)
  }

  lemma NameBack(name: bytes, rest: bytes)
    requires |name| < 0x8000_0000
    ensures RdName(WrName(name) + rest) == Got(name, rest)
  {
    assert WrName(name) + rest == U32(|name|) + (name + rest);
    U32Back(|name|, name + rest);
    BytesBack(name, rest);
  }

  function WrPair(a: nat, b: nat): bytes
    requires a < M32 && b < M32
  {
    U32(a) + U32(b)
  }

  function RdPair(s: bytes): Parsed<(nat, nat)> {
    match RdU32(s) case Fail => Fail case Got(a, s1) =>
    match RdU32(s1) case Fail => Fail case Got(b, s2) => Got((a, b), s2)
  }

  lemma PairBack(a: nat, b: nat, rest: bytes)
    requires a < M32 && b < M32
    ensures RdPair(WrPair(a, b) + rest) == Got((a, b), rest)
  {
    assert WrPair(a, b) + rest == U32(a) + (U32(b) + rest);
    U32Back(a, U32(b) + rest);
    U32Back(b, rest);
  }

  function WrFlags(a: bool, b: bool): bytes { U8(a) + U8(b) }

  function RdFlags(s: bytes): Parsed<(bool, bool)> {
    match RdU8(s) case Fail => Fail case Got(a, s1) =>
    match RdU8(s1) case Fail => Fail case Got(b, s2) => Got((a != 0, b != 0), s2)
  }

  lemma FlagsBack(a: bool, b: bool, rest: bytes)
    ensures RdFlags(WrFlags(a, b) + rest) == Got((a, b), rest)
  {
    assert WrFlags(a, b) + rest == U8(a) + (U8(b) + rest);
    U8Back(a, U8(b) + rest);
    U8Back(b, rest);
  }

  predicate SymFits(s: Sym) {
    |s.name| < 0x8000_0000 && s.sec < M32 && s.offset < M32 && s.size < M32 && s.align < M32
  }

  function WrSym(s: Sym): bytes {
    if !SymFits(s) then []
    else WrName(s.name) + (WrPair(s.sec, s.offset) + (WrPair(s.size, s.align) + WrFlags(s.defined, s.isStatic)))
  }

  function RdSym(s: bytes): Parsed<Sym> {
    match RdName(s) case Fail => Fail case Got(name, s1) =>
    match RdPair(s1) case Fail => Fail case Got(p, s2) =>
    match RdPair(s2) case Fail => Fail case Got(q, s3) =>
    match RdFlags(s3) case Fail => Fail case Got(f, s4) =>
      Got(Sym(name, p.0, p.1, q.0, q.1, f.0, f.1, []), s4)
  }

  function Bare(s: Sym): Sym { s.(drel := []) }

  lemma SymBack(s: Sym, rest: bytes)
    requires SymFits(s)
    ensures RdSym(WrSym(s) + rest) == Got(Bare(s), rest)
  {
    var f, q, p, n := WrFlags(s.defined, s.isStatic), WrPair(s.size, s.align), WrPair(s.sec, s.offset), WrName(s.name);
    Assoc4(n, p, q, f, rest);
    NameBack(s.name, p + (q + (f + rest)));
    PairBack(s.sec, s.offset, q + (f + rest));
    PairBack(s.size, s.align, f + rest);
    FlagsBack(s.defined, s.isStatic, rest);
  }

  lemma Assoc4(a: bytes, b: bytes, c: bytes, d: bytes, rest: bytes)
    ensures (a + (b + (c + d))) + rest == a + (b + (c + (d + rest)))
  {
  }

  /** a data relocation in the file: owner first */
  datatype FileDrel = FileDrel(owner: nat, r: DataReloc)

  predicate DrelFits(d: FileDrel) { d.owner < M32 && d.r.offset < M32 && d.r.sym < M32 && d.r.addend < M64 }

  function WrDrel(d: FileDrel): bytes {
    if !DrelFits(d) then [] else WrPair(d.owner, d.r.offset) + (U32(d.r.sym) + U64(d.r.addend))
  }

  function RdDrel(s: bytes): Parsed<FileDrel> {
    match RdPair(s) case Fail => Fail case Got(p, s1) =>
    match RdU32(s1) case Fail => Fail case Got(target, s2) =>
    match RdU64(s2) case Fail => Fail case Got(addend, s3) =>
      Got(FileDrel(p.0, DataReloc(p.1, target, addend)), s3)
  }

  lemma DrelBack(d: FileDrel, rest: bytes)
    requires DrelFits(d)
    ensures RdDrel(WrDrel(d) + rest) == Got(d, rest)
  {
    var p, t, a := WrPair(d.owner, d.r.offset), U32(d.r.sym), U64(d.r.addend);
    Assoc3(p, t, a, rest);
    PairBack(d.owner, d.r.offset, t + (a + rest));
    U32Back(d.r.sym, a + rest);
    U64Back(d.r.addend, rest);
  }

  lemma Assoc3(a: bytes, b: bytes, c: bytes, rest: bytes)
    ensures (a + (b + c)) + rest == a + (b + (c + rest))
  {
  }

  predicate RelocFits(r: Reloc) { r.pos < M32 && r.kind < M32 && r.sym < M32 && r.addend < M64 }

  function WrReloc(r: Reloc): bytes {
    if !RelocFits(r) then [] else WrPair(r.pos, r.kind) + (U32(r.sym) + U64(r.addend))
  }

  function RdReloc(s: bytes): Parsed<Reloc> {
    match RdPair(s) case Fail => Fail case Got(p, s1) =>
    match RdU32(s1) case Fail => Fail case Got(target, s2) =>
    match RdU64(s2) case Fail => Fail case Got(addend, s3) =>
      Got(Reloc(p.0, p.1, target, addend), s3)
  }

  lemma RelocBack(r: Reloc, rest: bytes)
    requires RelocFits(r)
    ensures RdReloc(WrReloc(r) + rest) == Got(r, rest)
  {
    var p, t, a := WrPair(r.pos, r.kind), U32(r.sym), U64(r.addend);
    Assoc3(p, t, a, rest);
    PairBack(r.pos, r.kind, t + (a + rest));
    U32Back(r.sym, a + rest);
    U64Back(r.addend, rest);
  }

  // ----- data relocations travel in one list -----

  /** the data relocations of symbols i, i + 1, ... with their owner */
  function Owned(i: nat, ds: seq<DataReloc>): seq<FileDrel> {
    seq(|ds|, k requires 0 <= k < |ds| => FileDrel(i, ds[k]))
  }

  function Flatten(syms: seq<Sym>): seq<FileDrel> {
    if syms == [] then []
    else Flatten(syms[..|syms| - 1]) + Owned(|syms| - 1, syms[|syms| - 1].drel)
  }

  /** the reader hangs each one at the head of its owner's list */
  function Hang(syms: seq<Sym>, d: FileDrel): (r: seq<Sym>)
    requires d.owner < |syms|
    ensures |r| == |syms|
  {
    syms[d.owner := syms[d.owner].(drel := [d.r] + syms[d.owner].drel)]
  }

  function HangAll(syms: seq<Sym>, ds: seq<FileDrel>): (r: seq<Sym>)
    requires forall i | 0 <= i < |ds| :: ds[i].owner < |syms|
    ensures |r| == |syms|
    decreases |ds|
  {
    if ds == [] then syms else Hang(HangAll(syms, ds[..|ds| - 1]), ds[|ds| - 1])
  }

  function Turned(s: Sym): Sym { s.(drel := Reversed(s.drel)) }

  /** bare symbols, of which the first k have their lists, reversed */
  function Partly(syms: seq<Sym>, k: nat): (r: seq<Sym>)
    requires k <= |syms|
    ensures |r| == |syms|
  {
    seq(|syms|, i requires 0 <= i < |syms| => if i < k then Turned(syms[i]) else Bare(syms[i]))
  }

  lemma {:induction false} HangOwned(base: seq<Sym>, i: nat, ds: seq<DataReloc>)
    requires i < |base| && base[i].drel == []
    ensures HangAll(base, Owned(i, ds)) == base[i := base[i].(drel := Reversed(ds))]
    decreases |ds|
  {
    var fs := Owned(i, ds);
    if ds != [] {
      var n := |ds| - 1;
      assert fs[..n] == Owned(i, ds[..n]);
      HangOwned(base, i, ds[..n]);
      ReversedSnoc(ds[..n], ds[n]);
      assert ds[..n] + [ds[n]] == ds;
    }
  }

  lemma {:induction false} HangJoin(base: seq<Sym>, a: seq<FileDrel>, b: seq<FileDrel>)
    requires (forall i | 0 <= i < |a| :: a[i].owner < |base|) && (forall i | 0 <= i < |b| :: b[i].owner < |base|)
    ensures HangAll(base, a + b) == HangAll(HangAll(base, a), b)
    decreases |b|
  {
    if b == [] {
      assert a + b == a;
    } else {
      var n := |b| - 1;
      assert (a + b)[..|a + b| - 1] == a + b[..n] && (a + b)[|a + b| - 1] == b[n];
      HangJoin(base, a, b[..n]);
    }
  }

  lemma {:induction false} FlattenOwners(syms: seq<Sym>, k: nat)
    requires k <= |syms|
    ensures forall i | 0 <= i < |Flatten(syms[..k])| :: Flatten(syms[..k])[i].owner < k
    decreases k
  {
    if k > 0 {
      var p := syms[..k];
      assert p[..|p| - 1] == syms[..k - 1] && p[|p| - 1] == syms[k - 1];
      FlattenOwners(syms, k - 1);
    }
  }

  /** hanging the flattened lists gives every symbol its own list back, reversed */
  lemma {:induction false} HangFlatten(syms: seq<Sym>, k: nat)
    requires k <= |syms|
    ensures forall i | 0 <= i < |Flatten(syms[..k])| :: Flatten(syms[..k])[i].owner < |syms|
    ensures HangAll(Partly(syms, 0), Flatten(syms[..k])) == Partly(syms, k)
    decreases k
  {
    FlattenOwners(syms, k);
    if k > 0 {
      var p := syms[..k];
      assert p[..|p| - 1] == syms[..k - 1] && p[|p| - 1] == syms[k - 1];
      HangFlatten(syms, k - 1);
      HangJoin(Partly(syms, 0), Flatten(syms[..k - 1]), Owned(k - 1, syms[k - 1].drel));
      HangOwned(Partly(syms, k - 1), k - 1, syms[k - 1].drel);
      assert Partly(syms, k - 1)[k - 1 := Turned(syms[k - 1])] == Partly(syms, k);
    }
  }

  // ----- whole files -----

  const MAGIC: bytes := [67, 67, 79, 49]

  /** code, data and bss length, then the numbers of symbols and relocations */
  datatype Header = Header(codeLen: nat, dataLen: nat, bssLen: nat, nsyms: nat, ndrels: nat, nrelocs: nat)

  predicate HeaderFits(h: Header) {
    h.codeLen < M32 && h.dataLen < M32 && h.bssLen < M32 && h.nsyms < M32 && h.ndrels < M32 && h.nrelocs < M32
  }

  function WrHeader(h: Header): bytes
    requires HeaderFits(h)
  {
    U32(1) + (WrPair(h.codeLen, h.dataLen) + (WrPair(h.bssLen, h.nsyms) + WrPair(h.ndrels, h.nrelocs)))
  }

  function RdHeader(s: bytes): Parsed<Header> {
    match RdU32(s) case Fail => Fail case Got(version, s1) =>
    if version != 1 then Fail else
    match RdPair(s1) case Fail => Fail case Got(p, s2) =>
    match RdPair(s2) case Fail => Fail case Got(q, s3) =>
    match RdPair(s3) case Fail => Fail case Got(r, s4) =>
      Got(Header(p.0, p.1, q.0, q.1, r.0, r.1), s4)
  }

  lemma HeaderBack(h: Header, rest: bytes)
    requires HeaderFits(h)
    ensures RdHeader(WrHeader(h) + rest) == Got(h, rest)
  {
    var v, p, q, r := U32(1), WrPair(h.codeLen, h.dataLen), WrPair(h.bssLen, h.nsyms), WrPair(h.ndrels, h.nrelocs);
    Assoc4(v, p, q, r, rest);
    U32Back(1, p + (q + (r + rest)));
    PairBack(h.codeLen, h.dataLen, q + (r + rest));
    PairBack(h.bssLen, h.nsyms, r + rest);
    PairBack(h.ndrels, h.nrelocs, rest);
  }

  function HeaderOf(u: Unit): Header {
    Header(|u.code|, |u.data|, u.bssLen, |u.syms|, |Flatten(u.syms)|, |u.relocs|)
  }

  /** everything fits the file's integer fields and every index names a symbol */
  ghost predicate Fits(u: Unit) {
    var n := |u.syms|;
    && |u.code| < 0x8000_0000 && |u.data| < 0x8000_0000 && u.bssLen < M32 && n < 0x8000_0000
    && |Flatten(u.syms)| < 0x8000_0000 && |u.relocs| < 0x8000_0000
    && (forall i | 0 <= i < n :: SymFits(u.syms[i]))
    && (forall i | 0 <= i < |Flatten(u.syms)| :: DrelFits(Flatten(u.syms)[i]) && Flatten(u.syms)[i].r.sym < n)
    && (forall i | 0 <= i < |u.relocs| :: RelocFits(u.relocs[i]) && u.relocs[i].sym < n)
  }

  function Symbols(u: Unit): bytes { WriteList(u.syms, WrSym) }
  function Drels(u: Unit): bytes { WriteList(Flatten(u.syms), WrDrel) }
  function Relocs(u: Unit): bytes { WriteList(u.relocs, WrReloc) }

  /** what write_object writes */
  function WriteUnit(u: Unit): bytes
    requires HeaderFits(HeaderOf(u))
  {
    MAGIC + (WrHeader(HeaderOf(u)) + (u.code + (u.data + (Symbols(u) + (Drels(u) + Relocs(u))))))
  }

  /** field k of the header, a little-endian number behind the four letters */
  function FieldAt(file: bytes, k: nat): nat
    requires 4 * k + 8 <= |file|
  {
    LittleEndian(file[4 * k + 4..4 * k + 8])
  }

  /** Every file starts with CCO1, the version 1, the three lengths and the three
      counts. */
  lemma FileStarts(u: Unit)
    requires HeaderFits(HeaderOf(u))
    ensures var f := WriteUnit(u); |f| >= 32 && f[..4] == [67, 67, 79, 49] && FieldAt(f, 0) == 1
    ensures
      var f := WriteUnit(u);
      && FieldAt(f, 1) == |u.code| && FieldAt(f, 2) == |u.data| && FieldAt(f, 3) == u.bssLen
      && FieldAt(f, 4) == |u.syms| && FieldAt(f, 5) == |Flatten(u.syms)| && FieldAt(f, 6) == |u.relocs|
  {
    var f, h := WriteUnit(u), HeaderOf(u);
    var rest := u.code + (u.data + (Symbols(u) + (Drels(u) + Relocs(u))));
    var fields := [1, h.codeLen, h.dataLen, h.bssLen, h.nsyms, h.ndrels, h.nrelocs];
    assert f == MAGIC + (WrHeader(h) + rest);
    HeaderFields(h, MAGIC, rest, fields);
  }

  lemma HeaderFields(h: Header, magic: bytes, rest: bytes, fields: seq<nat>)
    requires HeaderFits(h) && |magic| == 4
    requires fields == [1, h.codeLen, h.dataLen, h.bssLen, h.nsyms, h.ndrels, h.nrelocs]
    ensures
      var f := magic + (WrHeader(h) + rest);
      |f| >= 32 && f[..4] == magic && forall k | 0 <= k < 7 :: FieldAt(f, k) == fields[k]
  {
    var f, w := magic + (WrHeader(h) + rest), WrHeader(h);
    assert |w| == 28;
    forall k | 0 <= k < 7 ensures FieldAt(f, k) == fields[k] {
      assert f[4 * k + 4..4 * k + 8] == w[4 * k..4 * k + 4] == U32(fields[k]);
      U32Value(fields[k]);
    }
  }

  /** a count is a C int: the upper half of the range counts as negative */
  function Count(n: nat): nat { if n < 0x8000_0000 then n else 0 }

  predicate IndexesOk(ds: seq<FileDrel>, rs: seq<Reloc>, n: nat) {
    && (forall i | 0 <= i < |ds| :: ds[i].owner < n && ds[i].r.sym < n)
    && (forall i | 0 <= i < |rs| :: rs[i].sym < n)
  }

  /** what read_object makes of a file; None is one of its fatal errors */
  function ReadUnit(s: bytes): Option<Unit> {
    match RdBytes(s, 4) case Fail => None case Got(magic, s0) =>
    if magic != MAGIC then None else
    match RdHeader(s0) case Fail => None case Got(h, s1) =>
    match RdBytes(s1, h.codeLen) case Fail => None case Got(code, s2) =>
    match RdBytes(s2, h.dataLen) case Fail => None case Got(data, s3) =>
      ReadTables(h, code, data, s3)
  }

  /** the symbol table and the two relocation tables */
  function ReadTables(h: Header, code: bytes, data: bytes, s3: bytes): Option<Unit> {
    match ReadList(Count(h.nsyms), s3, RdSym) case Fail => None case Got(syms, s4) =>
    match ReadList(Count(h.ndrels), s4, RdDrel) case Fail => None case Got(ds, s5) =>
    match ReadList(Count(h.nrelocs), s5, RdReloc) case Fail => None case Got(rs, s6) =>
    if s6 != [] || !IndexesOk(ds, rs, |syms|) then None
    else Some(Unit(code, data, h.bssLen, HangAll(syms, ds), Reversed(rs)))
  }

  /** the unit with all its relocation lists reversed */
  function Mirror(u: Unit): Unit { u.(syms := Partly(u.syms, |u.syms|), relocs := Reversed(u.relocs)) }

  lemma SymsBack(u: Unit, rest: bytes)
    requires forall i | 0 <= i < |u.syms| :: SymFits(u.syms[i])
    ensures ReadList(|u.syms|, Symbols(u) + rest, RdSym) == Got(Partly(u.syms, 0), rest)
  {
    var w, r, ss, bs := WrSym, RdSym, u.syms, Partly(u.syms, 0);
    forall i | 0 <= i < |ss| ensures Back(w, r, ss[i], bs[i]) {
      forall rest': bytes {:trigger w(ss[i]) + rest'}
        ensures r(w(ss[i]) + rest') == Got(bs[i], rest')
      {
        SymBack(ss[i], rest');
      }
    }
    ListBack(ss, bs, w, r, rest);
  }

  lemma DrelsBack(ds: seq<FileDrel>, rest: bytes)
    requires forall i | 0 <= i < |ds| :: DrelFits(ds[i])
    ensures ReadList(|ds|, WriteList(ds, WrDrel) + rest, RdDrel) == Got(ds, rest)
  {
    var w, r := WrDrel, RdDrel;
    forall i | 0 <= i < |ds| ensures Back(w, r, ds[i], ds[i]) {
      forall rest': bytes {:trigger w(ds[i]) + rest'}
        ensures r(w(ds[i]) + rest') == Got(ds[i], rest')
      {
        DrelBack(ds[i], rest');
      }
    }
    ListBack(ds, ds, w, r, rest);
  }

  lemma RelocsBack(rs: seq<Reloc>, rest: bytes)
    requires forall i | 0 <= i < |rs| :: RelocFits(rs[i])
    ensures ReadList(|rs|, WriteList(rs, WrReloc) + rest, RdReloc) == Got(rs, rest)
  {
    var w, r := WrReloc, RdReloc;
    forall i | 0 <= i < |rs| ensures Back(w, r, rs[i], rs[i]) {
      forall rest': bytes {:trigger w(rs[i]) + rest'}
        ensures r(w(rs[i]) + rest') == Got(rs[i], rest')
      {
        RelocBack(rs[i], rest');
      }
    }
    ListBack(rs, rs, w, r, rest);
  }

  /** Reading back what was written gives the unit, its relocation lists reversed. */
  lemma ObjectRoundTrip(u: Unit)
    requires Fits(u)
    ensures ReadUnit(WriteUnit(u)) == Some(Mirror(u))
  {
    var h := WrHeader(HeaderOf(u));
    var t3 := Symbols(u) + (Drels(u) + Relocs(u));
    var t2 := u.data + t3;
    BytesBack(MAGIC, h + (u.code + t2));
    HeaderBack(HeaderOf(u), u.code + t2);
    BytesBack(u.code, t2);
    BytesBack(u.data, t3);
    TablesBack(u);
  }

  lemma TablesBack(u: Unit)
    requires Fits(u)
    ensures ReadTables(HeaderOf(u), u.code, u.data, Symbols(u) + (Drels(u) + Relocs(u))) == Some(Mirror(u))
  {
    var t4, t5 := Drels(u) + Relocs(u), Relocs(u);
    SymsBack(u, t4);
    DrelsBack(Flatten(u.syms), t5);
    assert t5 + [] == t5;
    RelocsBack(u.relocs, []);
    HangsBack(u);
    TablesFrom(HeaderOf(u), u.code, u.data, Symbols(u) + t4, t4, t5, Partly(u.syms, 0), Flatten(u.syms), u.relocs);
  }

  lemma HangsBack(u: Unit)
    requires Fits(u)
    ensures IndexesOk(Flatten(u.syms), u.relocs, |u.syms|)
    ensures HangAll(Partly(u.syms, 0), Flatten(u.syms)) == Partly(u.syms, |u.syms|)
  {
    assert u.syms[..|u.syms|] == u.syms;
    FlattenOwners(u.syms, |u.syms|);
    HangFlatten(u.syms, |u.syms|);
  }

  lemma TablesFrom(h: Header, code: bytes, data: bytes, s3: bytes, s4: bytes, s5: bytes, syms: seq<Sym>,
        ds: seq<FileDrel>, rs: seq<Reloc>)
    requires ReadList(Count(h.nsyms), s3, RdSym) == Got(syms, s4)
    requires ReadList(Count(h.ndrels), s4, RdDrel) == Got(ds, s5)
    requires ReadList(Count(h.nrelocs), s5, RdReloc) == Got(rs, []) && IndexesOk(ds, rs, |syms|)
    ensures ReadTables(h, code, data, s3) == Some(Unit(code, data, h.bssLen, HangAll(syms, ds), Reversed(rs)))
  {
  }

  ghost predicate DrelOk(i: nat, d: DataReloc, n: nat) { DrelFits(FileDrel(i, d)) && d.sym < n }

  ghost predicate AllDrelsOk(ds: seq<FileDrel>, n: nat) {
    forall k | 0 <= k < |ds| :: DrelOk(ds[k].owner, ds[k].r, n)
  }

  /** reversing the lists changes neither how many entries there are nor whether
      they fit */
  lemma {:induction false} FlattenTurned(syms: seq<Sym>, n: nat)
    ensures |Flatten(Partly(syms, |syms|))| == |Flatten(syms)|
    ensures AllDrelsOk(Flatten(syms), n) ==> AllDrelsOk(Flatten(Partly(syms, |syms|)), n)
    decreases |syms|
  {
    if syms != [] {
      var m := |syms| - 1;
      var turned, front := Partly(syms, m + 1), syms[..m];
      assert turned[..m] == Partly(front, m) && turned[m] == Turned(syms[m]);
      FlattenTurned(front, n);
      OwnedTurned(Flatten(front), Flatten(turned[..m]), m, syms[m].drel, n);
    }
  }

  lemma OwnedTurned(a: seq<FileDrel>, b: seq<FileDrel>, i: nat, ds: seq<DataReloc>, n: nat)
    requires AllDrelsOk(a, n) ==> AllDrelsOk(b, n)
    ensures AllDrelsOk(a + Owned(i, ds), n) ==> AllDrelsOk(b + Owned(i, Reversed(ds)), n)
  {
    var x, y := a + Owned(i, ds), b + Owned(i, Reversed(ds));
    if AllDrelsOk(x, n) {
      forall k | 0 <= k < |a| ensures DrelOk(a[k].owner, a[k].r, n) { assert x[k] == a[k]; }
      forall k | 0 <= k < |y| ensures DrelOk(y[k].owner, y[k].r, n) {
        if k >= |b| {
          var j := |ds| - 1 - (k - |b|);
          assert y[k] == FileDrel(i, ds[j]) == x[|a| + j];
        }
      }
    }
  }

  lemma MirrorFits(u: Unit)
    requires Fits(u)
    ensures Fits(Mirror(u))
  {
    var n, v := |u.syms|, Mirror(u);
    assert AllDrelsOk(Flatten(u.syms), n);
    FlattenTurned(u.syms, n);
    forall i | 0 <= i < |Flatten(v.syms)| ensures DrelFits(Flatten(v.syms)[i]) && Flatten(v.syms)[i].r.sym < n {
      assert DrelOk(Flatten(v.syms)[i].owner, Flatten(v.syms)[i].r, n);
    }
    forall i | 0 <= i < n ensures SymFits(v.syms[i]) { assert SymFits(u.syms[i]); }
    forall i | 0 <= i < |v.relocs| ensures RelocFits(v.relocs[i]) && v.relocs[i].sym < n {
      assert v.relocs[i] == u.relocs[|u.relocs| - 1 - i];
    }
  }

  lemma MirrorTwice(u: Unit)
    ensures Mirror(Mirror(u)) == u
  {
    forall i | 0 <= i < |u.syms| ensures Reversed(Reversed(u.syms[i].drel)) == u.syms[i].drel {}
    assert Partly(Partly(u.syms, |u.syms|), |u.syms|) == u.syms;
    assert Reversed(Reversed(u.relocs)) == u.relocs;
  }

  /** Writing what was read and reading it again restores the unit exactly. */
  lemma TwoTrips(u: Unit)
    requires Fits(u)
    ensures ReadUnit(WriteUnit(u)).Some?
    ensures
      var v := ReadUnit(WriteUnit(u)).value;
      Fits(v) && ReadUnit(WriteUnit(v)) == Some(u)
  {
    ObjectRoundTrip(u);
    MirrorFits(u);
    ObjectRoundTrip(Mirror(u));
    MirrorTwice(u);
  }

  // ----- the code -----

  /** the input that is left; None is "truncated object file" */
  class Reader {
    var rest: bytes

    constructor (s: bytes)
      ensures rest == s
    {
      rest := s;
    }

    method Take<T>(f: bytes -> Parsed<T>) returns (r: Option<T>)
      modifies this
      ensures match f(old(rest)) case Fail => r == None case Got(v, s) => r == Some(v) && rest == s
    {
      match f(rest)
      case Fail => r := None;
      case Got(v, s) => r := Some(v); rest := s;
    }

    /** n records in a row */
    method Items<T>(n: nat, f: bytes -> Parsed<T>) returns (r: Option<seq<T>>)
      modifies this
      ensures match ReadList(n, old(rest), f) case Fail => r == None case Got(xs, s) => r == Some(xs) && rest == s
    {
      var acc: seq<T> := [];
      ghost var all := ReadList(n, rest, f);
      PrefixedNothing(all);
      for i := 0 to n
        invariant all == Prefixed(acc, ReadList(n - i, rest, f))
      {
        ghost var s := rest;
        var x := Take(f);
        if x.None? { return None; }
        PrefixedStep(acc, x.value, ReadList(n - i - 1, rest, f));
        acc := acc + [x.value];
      }
      r := Some(acc);
      assert acc + [] == acc;
    }
  }

  function Prefixed<T>(xs: seq<T>, r: Parsed<seq<T>>): Parsed<seq<T>> {
    match r case Fail => Fail case Got(ys, s) => Got(xs + ys, s)
  }

  lemma PrefixedNothing<T>(r: Parsed<seq<T>>)
    ensures Prefixed([], r) == r
  {
    if r.Got? { assert [] + r.v == r.v; }
  }

  lemma PrefixedStep<T>(xs: seq<T>, x: T, r: Parsed<seq<T>>)
    ensures Prefixed(xs, Prefixed([x], r)) == Prefixed(xs + [x], r)
  {
    if r.Got? { assert xs + ([x] + r.v) == (xs + [x]) + r.v; }
  }

  /** read_object */
  method ReadObject(s: bytes) returns (r: Option<Unit>)
    ensures r == ReadUnit(s)
  {
    var rd := new Reader(s);
    var magic := rd.Take((x: bytes) => RdBytes(x, 4));
    if magic != Some(MAGIC) { return None; }
    var h := rd.Take(RdHeader);
    if h.None? { return None; }
    var n := h.value;
    var code := rd.Take((x: bytes) => RdBytes(x, n.codeLen));
    if code.None? { return None; }
    var data := rd.Take((x: bytes) => RdBytes(x, n.dataLen));
    if data.None? { return None; }
    r := ReadTail(rd, n, code.value, data.value);
  }

  method ReadTail(rd: Reader, h: Header, code: bytes, data: bytes) returns (r: Option<Unit>)
    modifies rd
    ensures r == ReadTables(h, code, data, old(rd.rest))
  {
    var syms := rd.Items(Count(h.nsyms), RdSym);
    if syms.None? { return None; }
    var ds := rd.Items(Count(h.ndrels), RdDrel);
    if ds.None? { return None; }
    var rs := rd.Items(Count(h.nrelocs), RdReloc);
    if rs.None? || rd.rest != [] || !IndexesOk(ds.value, rs.value, |syms.value|) { return None; }
    var out := syms.value;
    for i := 0 to |ds.value|
      invariant out == HangAll(syms.value, ds.value[..i])
    {
      assert ds.value[..i + 1][..i] == ds.value[..i] && ds.value[..i + 1][i] == ds.value[i];
      out := Hang(out, ds.value[i]);
    }
    assert ds.value[..|ds.value|] == ds.value;
    r := Some(Unit(code, data, h.bssLen, out, Reversed(rs.value)));
  }

  lemma {:induction false} WriteSnoc<T>(xs: seq<T>, x: T, w: T -> bytes)
    ensures WriteList(xs + [x], w) == WriteList(xs, w) + w(x)
    decreases |xs|
  {
    if xs == [] {
      assert [x][1..] == [] && w(x) + [] == w(x);
    } else {
      assert (xs + [x])[1..] == xs[1..] + [x];
      WriteSnoc(xs[1..], x, w);
    }
  }

  method WriteItems<T>(xs: seq<T>, w: T -> bytes) returns (out: bytes)
    ensures out == WriteList(xs, w)
  {
    out := [];
    for i := 0 to |xs|
      invariant out == WriteList(xs[..i], w)
    {
      assert xs[..i + 1] == xs[..i] + [xs[i]];
      WriteSnoc(xs[..i], xs[i], w);
      out := out + w(xs[i]);
    }
    assert xs[..|xs|] == xs;
  }

  /** the nested loop over symbols and their data relocations */
  method CollectDrels(syms: seq<Sym>) returns (ds: seq<FileDrel>)
    ensures ds == Flatten(syms)
  {
    ds := [];
    for i := 0 to |syms|
      invariant ds == Flatten(syms[..i])
    {
      ghost var front := ds;
      for k := 0 to |syms[i].drel|
        invariant ds == front + Owned(i, syms[i].drel[..k])
      {
        assert Owned(i, syms[i].drel[..k + 1]) == Owned(i, syms[i].drel[..k]) + [FileDrel(i, syms[i].drel[k])];
        ds := ds + [FileDrel(i, syms[i].drel[k])];
      }
      assert syms[i].drel[..|syms[i].drel|] == syms[i].drel;
      assert syms[..i + 1][..i] == syms[..i] && syms[..i + 1][i] == syms[i];
    }
    assert syms[..|syms|] == syms;
  }

  /** write_object */
  method WriteObject(u: Unit) returns (out: bytes)
    requires HeaderFits(HeaderOf(u))
    ensures out == WriteUnit(u)
  {
    var ds := CollectDrels(u.syms);
    var a := WriteItems(u.syms, WrSym);
    var b := WriteItems(ds, WrDrel);
    var c := WriteItems(u.relocs, WrReloc);
    out := MAGIC +
      (WrHeader(Header(|u.code|, |u.data|, u.bssLen, |u.syms|, |ds|, |u.relocs|)) +
        (u.code + (u.data + (a + (b + c)))));
  }
}
