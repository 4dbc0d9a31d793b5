/** Section layout: finalize_unit inside a unit, and the placement of units in the
    loaded image. */
module CcLayout {
  import opened Options
  import opened RvArith
  import opened Bytes
  import opened CcUnit

  /** a symbol while its unit is being compiled; init is absent without initialiser */
  datatype Global = Global(sym: Sym, init: Option<bytes>)

  predicate SymOk(g: Global) { g.sym.align > 0 && (g.init.Some? ==> |g.init.value| == g.sym.size) }

  predicate SymsOk(ss: seq<Global>) { forall i | 0 <= i < |ss| :: SymOk(ss[i]) }

  predicate Here(g: Global, sec: nat) { g.sym.defined && g.sym.sec == sec }

  // ----- inside a unit -----

  /** where a section ends after the symbols ss */
  function End(ss: seq<Global>, sec: nat): nat
    requires SymsOk(ss)
  {
    if ss == [] then 0
    else
      var e, s := End(ss[..|ss| - 1], sec), ss[|ss| - 1];
      if Here(s, sec) then AlignTo(e, s.sym.align) + s.sym.size else e
  }

  /** where symbol i starts */
  function Start(ss: seq<Global>, sec: nat, i: nat): nat
    requires SymsOk(ss) && i < |ss|
  {
    AlignTo(End(ss[..i], sec), ss[i].sym.align)
  }

  lemma EndStep(ss: seq<Global>, sec: nat, i: nat)
    requires SymsOk(ss) && i < |ss|
    ensures End(ss[..i + 1], sec) == if Here(ss[i], sec) then Start(ss, sec, i) + ss[i].sym.size else End(ss[..i], sec)
  {
    assert ss[..i + 1][..i] == ss[..i] && ss[..i + 1][i] == ss[i];
  }

  lemma {:induction false} EndMono(ss: seq<Global>, sec: nat, i: nat, j: nat)
    requires SymsOk(ss) && i <= j <= |ss|
    ensures End(ss[..i], sec) <= End(ss[..j], sec)
    decreases j - i
  {
    if i < j {
      EndStep(ss, sec, j - 1);
      EndMono(ss, sec, i, j - 1);
    }
  }

  /** Symbols of a section are aligned, lie inside it, and come one after the
      other without overlap. */
  lemma SymbolsApart(ss: seq<Global>, sec: nat, i: nat, j: nat)
    requires SymsOk(ss) && i < j < |ss| && Here(ss[i], sec) && Here(ss[j], sec)
    ensures Start(ss, sec, i) + ss[i].sym.size <= Start(ss, sec, j)
    ensures Start(ss, sec, j) + ss[j].sym.size <= End(ss, sec)
    ensures Start(ss, sec, i) % ss[i].sym.align == 0 && Start(ss, sec, j) % ss[j].sym.align == 0
  {
    EndStep(ss, sec, i);
    EndMono(ss, sec, i + 1, j);
    SymbolInside(ss, sec, j);
  }

  lemma SymbolInside(ss: seq<Global>, sec: nat, i: nat)
    requires SymsOk(ss) && i < |ss| && Here(ss[i], sec)
    ensures Start(ss, sec, i) + ss[i].sym.size <= End(ss, sec) && Start(ss, sec, i) % ss[i].sym.align == 0
  {
    EndStep(ss, sec, i);
    EndMono(ss, sec, i + 1, |ss|);
    assert ss[..|ss|] == ss;
  }

  /** Nothing is wasted: the first symbol of a section starts it, and another one starts
      less than its alignment behind the one before. */
  lemma SymbolsTight(ss: seq<Global>, sec: nat, i: nat, j: nat)
    requires SymsOk(ss) && i < j <= |ss| && (forall k | i < k < j :: !Here(ss[k], sec))
    ensures (forall k | 0 <= k <= i :: !Here(ss[k], sec)) ==> End(ss[..j], sec) == 0
    ensures Here(ss[i], sec) ==> End(ss[..j], sec) == Start(ss, sec, i) + ss[i].sym.size
    ensures j < |ss| ==> Start(ss, sec, j) < End(ss[..j], sec) + ss[j].sym.align
  {
    NoneHere(ss, sec, i + 1, j);
    EndStep(ss, sec, i);
    if forall k | 0 <= k <= i :: !Here(ss[k], sec) {
      NoneHere(ss, sec, 0, i);
      assert ss[..0] == [];
    }
  }

  lemma {:induction false} NoneHere(ss: seq<Global>, sec: nat, i: nat, j: nat)
    requires SymsOk(ss) && i <= j <= |ss| && forall k | i <= k < j :: !Here(ss[k], sec)
    ensures End(ss[..j], sec) == End(ss[..i], sec)
    decreases j - i
  {
    if i < j {
      EndStep(ss, sec, j - 1);
      NoneHere(ss, sec, i, j - 1);
    }
  }

  function At(g: Global, off: nat): Global { g.(sym := g.sym.(offset := off)) }

  /** the passes of finalize_unit that assign offsets */
  method AssignOffsets(ss: seq<Global>, sec: nat) returns (out: seq<Global>, end: nat)
    requires SymsOk(ss)
    ensures |out| == |ss| && end == End(ss, sec)
    ensures forall i | 0 <= i < |ss| :: out[i] == if Here(ss[i], sec) then At(ss[i], Start(ss, sec, i)) else ss[i]
  {
    out, end := [], 0;
    for i := 0 to |ss|
      invariant |out| == i && end == End(ss[..i], sec)
      invariant forall k | 0 <= k < i :: out[k] == if Here(ss[k], sec) then At(ss[k], Start(ss, sec, k)) else ss[k]
    {
      EndStep(ss, sec, i);
      if Here(ss[i], sec) {
        var off := AlignTo(end, ss[i].sym.align);
        out := out + [At(ss[i], off)];
        end := off + ss[i].sym.size;
      } else {
        out := out + [ss[i]];
      }
    }
    assert ss[..|ss|] == ss;
  }

  /** a symbol's initial bytes */
  function Initial(s: Global): (b: bytes)
    requires SymOk(s)
    ensures |b| == s.sym.size
  {
    if s.init.Some? then s.init.value else Zeros(s.sym.size)
  }

  ghost predicate HasBytes(data: bytes, at: nat, b: bytes) { at + |b| <= |data| && data[at..at + |b|] == b }

  lemma BytesStay(data: bytes, more: bytes, at: nat, b: bytes)
    requires HasBytes(data, at, b)
    ensures HasBytes(data + more, at, b)
  {
    assert (data + more)[at..at + |b|] == data[at..at + |b|];
  }

  /** the pass that builds the data section: independent of the offsets, yet each
      symbol's bytes end up where the offset pass put the symbol */
  method BuildData(ss: seq<Global>) returns (data: bytes)
    requires SymsOk(ss)
    ensures |data| == End(ss, SEC_DATA)
    ensures forall i | 0 <= i < |ss| && Here(ss[i], SEC_DATA) :: HasBytes(data, Start(ss, SEC_DATA, i), Initial(ss[i]))
  {
    data := [];
    for i := 0 to |ss|
      invariant |data| == End(ss[..i], SEC_DATA)
      invariant forall k: nat {:trigger BuiltAt(ss, data, k)} | k < i :: BuiltAt(ss, data, k)
    {
      EndStep(ss, SEC_DATA, i);
      if Here(ss[i], SEC_DATA) {
        var pad := AlignTo(|data|, ss[i].sym.align) - |data|;
        var body := if ss[i].init.Some? && ss[i].sym.size > 0 then ss[i].init.value else Zeros(ss[i].sym.size);
        InitialIs(ss[i], body);
        OneBuilt(ss, i, data, pad);
        data := data + (Zeros(pad) + body);
      }
    }
    assert ss[..|ss|] == ss;
    forall i | 0 <= i < |ss| && Here(ss[i], SEC_DATA)
      ensures HasBytes(data, Start(ss, SEC_DATA, i), Initial(ss[i]))
    {
      assert BuiltAt(ss, data, i);
    }
  }

  /** symbol k's bytes stand where the offset pass puts it */
  ghost predicate BuiltAt(ss: seq<Global>, data: bytes, k: nat)
    requires SymsOk(ss) && k < |ss|
  {
    Here(ss[k], SEC_DATA) ==> HasBytes(data, Start(ss, SEC_DATA, k), Initial(ss[k]))
  }

  /** appending symbol i's bytes after the padding */
  lemma OneBuilt(ss: seq<Global>, i: nat, data: bytes, pad: nat)
    requires SymsOk(ss) && i < |ss| && |data| + pad == Start(ss, SEC_DATA, i)
    requires forall k: nat {:trigger BuiltAt(ss, data, k)} | k < i :: BuiltAt(ss, data, k)
    ensures
      var next := data + (Zeros(pad) + Initial(ss[i]));
      forall k: nat {:trigger BuiltAt(ss, next, k)} | k <= i :: BuiltAt(ss, next, k)
  {
    var more := Zeros(pad) + Initial(ss[i]);
    var next := data + more;
    BytesAtEnd(data, Zeros(pad), Initial(ss[i]));
    forall k: nat {:trigger BuiltAt(ss, next, k)} | k <= i ensures BuiltAt(ss, next, k) {
      if k < i && Here(ss[k], SEC_DATA) {
        assert BuiltAt(ss, data, k);
        BytesStay(data, more, Start(ss, SEC_DATA, k), Initial(ss[k]));
      }
    }
  }

  lemma InitialIs(s: Global, body: bytes)
    requires SymOk(s) && body == if s.init.Some? && s.sym.size > 0 then s.init.value else Zeros(s.sym.size)
    ensures body == Initial(s)
  {
    if s.init.Some? && s.sym.size == 0 { assert s.init.value == [] && Zeros(0) == []; }
  }

  lemma BytesAtEnd(data: bytes, pad: bytes, body: bytes)
    ensures HasBytes(data + (pad + body), |data| + |pad|, body)
  {
    var all, at := data + (pad + body), |data| + |pad|;
    assert all[at..at + |body|] == body;
  }

  /** assigning offsets to the symbols of one section moves no other section */
  lemma {:induction false} EndKept(ss: seq<Global>, ts: seq<Global>, sec: nat)
    requires SymsOk(ss) && SymsOk(ts) && SameShape(ss, ts)
    ensures End(ts, sec) == End(ss, sec)
    decreases |ss|
  {
    if ss != [] { EndKept(ss[..|ss| - 1], ts[..|ts| - 1], sec); }
  }

  /** the same symbols up to their offsets */
  predicate SameShape(ss: seq<Global>, ts: seq<Global>) {
    |ss| == |ts| && forall i | 0 <= i < |ss| :: ts[i] == At(ss[i], ts[i].sym.offset)
  }

  lemma StartKept(ss: seq<Global>, ts: seq<Global>, sec: nat, i: nat)
    requires SymsOk(ss) && SymsOk(ts) && SameShape(ss, ts) && i < |ss|
    ensures Start(ts, sec, i) == Start(ss, sec, i)
  {
    EndKept(ss[..i], ts[..i], sec);
  }

  /** where finalize_unit puts a symbol */
  function OffsetIn(ss: seq<Global>, i: nat): nat
    requires SymsOk(ss) && i < |ss|
  {
    var g := ss[i];
    if Here(g, SEC_DATA) then Start(ss, SEC_DATA, i)
    else if Here(g, SEC_BSS) then Start(ss, SEC_BSS, i)
    else g.sym.offset
  }

  /** finalize_unit: data symbols get their offsets and their bytes stand there in
      the data, bss symbols get theirs, and nothing else about a symbol changes */
  method FinalizeUnit(code: bytes, ss: seq<Global>, relocs: seq<Reloc>) returns (u: Unit)
    requires SymsOk(ss)
    ensures u.code == code && u.relocs == relocs && |u.syms| == |ss|
    ensures |u.data| == End(ss, SEC_DATA) && u.bssLen == End(ss, SEC_BSS)
    ensures forall i | 0 <= i < |ss| :: u.syms[i] == ss[i].sym.(offset := OffsetIn(ss, i))
    ensures forall i | 0 <= i < |ss| && Here(ss[i], SEC_DATA) :: HasBytes(u.data, u.syms[i].offset, Initial(ss[i]))
  {
    var ts, _ := AssignOffsets(ss, SEC_DATA);
    var data := BuildData(ss);
    assert SameShape(ss, ts);
    var vs, bssLen := AssignOffsets(ts, SEC_BSS);
    EndKept(ss, ts, SEC_BSS);
    var syms := seq(|vs|, i requires 0 <= i < |vs| => vs[i].sym);
    forall i | 0 <= i < |ss| ensures syms[i] == ss[i].sym.(offset := OffsetIn(ss, i)) { StartKept(ss, ts, SEC_BSS, i); }
    u := Unit(code, data, bssLen, syms, relocs);
  }

  // ----- units in the image -----

  /** where the next unit's part of a section goes */
  function Base(lens: seq<nat>, k: nat): nat
    requires k <= |lens|
  {
    AlignTo(Total(lens[..k]), 16)
  }

  function Total(lens: seq<nat>): nat {
    if lens == [] then 0 else AlignTo(Total(lens[..|lens| - 1]), 16) + lens[|lens| - 1]
  }

  lemma TotalStep(lens: seq<nat>, k: nat)
    requires k < |lens|
    ensures Total(lens[..k + 1]) == Base(lens, k) + lens[k]
  {
    assert lens[..k + 1][..k] == lens[..k] && lens[..k + 1][k] == lens[k];
  }

  lemma {:induction false} TotalMono(lens: seq<nat>, i: nat, j: nat)
    requires i <= j <= |lens|
    ensures Total(lens[..i]) <= Total(lens[..j])
    decreases j - i
  {
    if i < j {
      TotalStep(lens, j - 1);
      TotalMono(lens, i, j - 1);
    }
  }

  lemma UnitsApart(lens: seq<nat>, i: nat, j: nat)
    requires i < j < |lens|
    ensures Base(lens, i) + lens[i] <= Base(lens, j) && Base(lens, j) + lens[j] <= Total(lens)
    ensures Base(lens, i) % 16 == 0
  {
    TotalStep(lens, i);
    TotalMono(lens, i + 1, j);
    UnitInside(lens, j);
  }

  lemma UnitInside(lens: seq<nat>, i: nat)
    requires i < |lens|
    ensures Base(lens, i) + lens[i] <= Total(lens) && Base(lens, i) % 16 == 0
  {
    TotalStep(lens, i);
    TotalMono(lens, i + 1, |lens|);
    assert lens[..|lens|] == lens;
  }

  /** Units follow each other with less than 16 bytes between, the first one at the
      start, and the section ends with the last. */
  lemma UnitsTight(lens: seq<nat>, i: nat)
    requires i < |lens|
    ensures i == 0 ==> Base(lens, i) == 0
    ensures i > 0 ==> Base(lens, i - 1) + lens[i - 1] <= Base(lens, i) < Base(lens, i - 1) + lens[i - 1] + 16
    ensures i == |lens| - 1 ==> Total(lens) == Base(lens, i) + lens[i]
  {
    if i > 0 { TotalStep(lens, i - 1); } else { assert lens[..0] == []; }
    TotalStep(lens, i);
    if i == |lens| - 1 { assert lens[..i + 1] == lens; }
  }

  /** Text starts at 0x11000; data follows text and bss data, 16-aligned, with less
      than 16 bytes between. */
  lemma SectionsTight(text: nat, data: nat)
    ensures SectionAt(text, data, SEC_TEXT) == 0x1_1000
    ensures var d := SectionAt(text, data, SEC_DATA); d % 16 == 0 && 0x1_1000 + text <= d < 0x1_1000 + text + 16
    ensures
      var (d, b) := (SectionAt(text, data, SEC_DATA), SectionAt(text, data, SEC_BSS));
      b % 16 == 0 && d + data <= b < d + data + 16
  {
  }

  /** one of the three loops of link_and_write */
  method AssignBases(lens: seq<nat>) returns (bases: seq<nat>, total: nat)
    ensures |bases| == |lens| && total == Total(lens) && forall k | 0 <= k < |lens| :: bases[k] == Base(lens, k)
  {
    bases, total := [], 0;
    for k := 0 to |lens|
      invariant |bases| == k && total == Total(lens[..k]) && forall i | 0 <= i < k :: bases[i] == Base(lens, i)
    {
      TotalStep(lens, k);
      total := AlignTo(total, 16);
      bases := bases + [total];
      total := total + lens[k];
    }
    assert lens[..|lens|] == lens;
  }

  const USER_BASE: nat := 0x1_0000
  const TEXT_FILE_OFF: nat := 0x1000

  /** the units of an image: code lengths and symbols */
  datatype Image = Image(codeLens: seq<nat>, units: seq<seq<Global>>)

  predicate ImageOk(m: Image) { |m.codeLens| == |m.units| && forall u | 0 <= u < |m.units| :: SymsOk(m.units[u]) }

  function Lens(m: Image, sec: nat): (l: seq<nat>)
    requires ImageOk(m)
    ensures |l| == |m.units|
  {
    if sec == SEC_TEXT then m.codeLens
    else seq(|m.units|, u requires 0 <= u < |m.units| => End(m.units[u], sec))
  }

  /** where a section starts, given the lengths of text and data */
  function SectionAt(text: nat, data: nat, sec: nat): nat {
    var t := USER_BASE + TEXT_FILE_OFF;
    var d := AlignTo(t + text, 16);
    if sec == SEC_TEXT then t else if sec == SEC_DATA then d else AlignTo(d + data, 16)
  }

  function SectionBase(m: Image, sec: nat): nat
    requires ImageOk(m)
  {
    SectionAt(Total(Lens(m, SEC_TEXT)), Total(Lens(m, SEC_DATA)), sec)
  }

  /** the length of the loaded segment */
  function MemLen(m: Image): nat
    requires ImageOk(m)
  {
    SectionBase(m, SEC_BSS) - USER_BASE + Total(Lens(m, SEC_BSS))
  }

  predicate Placed(m: Image, sec: nat, u: nat, i: nat)
    requires ImageOk(m)
  {
    u < |m.units| && i < |m.units[u]| && Here(m.units[u][i], sec) && (sec == SEC_DATA || sec == SEC_BSS)
  }

  function Address(m: Image, sec: nat, u: nat, i: nat): nat
    requires ImageOk(m) && Placed(m, sec, u, i)
  {
    SectionBase(m, sec) + Base(Lens(m, sec), u) + Start(m.units[u], sec, i)
  }

  function SizeOf(m: Image, u: nat, i: nat): nat
    requires u < |m.units| && i < |m.units[u]|
  {
    m.units[u][i].sym.size
  }

  /** a data or bss symbol lies inside its section and inside the segment */
  lemma AddressInside(m: Image, sec: nat, u: nat, i: nat)
    requires ImageOk(m) && Placed(m, sec, u, i)
    ensures SectionBase(m, sec) <= Address(m, sec, u, i)
    ensures Address(m, sec, u, i) + SizeOf(m, u, i) <= SectionBase(m, sec) + Total(Lens(m, sec))
    ensures USER_BASE <= Address(m, sec, u, i) && Address(m, sec, u, i) + SizeOf(m, u, i) <= USER_BASE + MemLen(m)
  {
    SymbolInside(m.units[u], sec, i);
    UnitInside(Lens(m, sec), u);
  }

  predicate Divides16(a: nat) { a == 1 || a == 2 || a == 4 || a == 8 || a == 16 }

  /** and is aligned as it asks, for the alignments the compiler uses */
  lemma AddressAligned(m: Image, sec: nat, u: nat, i: nat)
    requires ImageOk(m) && Placed(m, sec, u, i) && Divides16(m.units[u][i].sym.align)
    ensures Address(m, sec, u, i) % m.units[u][i].sym.align == 0
  {
    AlignedParts(SectionBase(m, sec), Lens(m, sec), u, m.units[u], sec, i);
  }

  lemma AlignedParts(x: nat, lens: seq<nat>, u: nat, ss: seq<Global>, sec: nat, i: nat)
    requires x % 16 == 0 && u < |lens| && SymsOk(ss) && i < |ss| && Here(ss[i], sec) && Divides16(ss[i].sym.align)
    ensures (x + Base(lens, u) + Start(ss, sec, i)) % ss[i].sym.align == 0
  {
    SymbolInside(ss, sec, i);
    UnitInside(lens, u);
    SumAligned(x, Base(lens, u), Start(ss, sec, i), ss[i].sym.align);
  }

  lemma SumAligned(x: nat, y: nat, z: nat, a: nat)
    requires Divides16(a) && x % 16 == 0 && y % 16 == 0 && z % a == 0
    ensures (x + y + z) % a == 0
  {
    MultipleOf(x, a);
    MultipleOf(y, a);
    var p, q, r := x / a, y / a, z / a;
    assert x == p * a && y == q * a && z == r * a;
    ModIs(x + y + z, a, p + q + r, 0);
  }

  lemma MultipleOf(x: nat, a: nat)
    requires Divides16(a) && x % 16 == 0
    ensures x % a == 0
  {
    var p := x / 16;
    if a == 1 { ModIs(x, 1, 16 * p, 0); }
    if a == 2 { ModIs(x, 2, 8 * p, 0); }
    if a == 4 { ModIs(x, 4, 4 * p, 0); }
    if a == 8 { ModIs(x, 8, 2 * p, 0); }
  }

  /** Any two different data or bss symbols of the image occupy disjoint ranges. */
  lemma AddressesApart(m: Image, s1: nat, u: nat, i: nat, s2: nat, v: nat, j: nat)
    requires ImageOk(m) && Placed(m, s1, u, i) && Placed(m, s2, v, j) && (u, i) != (v, j)
    ensures
      var a, b := Address(m, s1, u, i), Address(m, s2, v, j);
      a + SizeOf(m, u, i) <= b || b + SizeOf(m, v, j) <= a
  {
    if s1 != s2 {
      AddressInside(m, s1, u, i);
      AddressInside(m, s2, v, j);
    } else if u < v {
      UnitsApart(Lens(m, s1), u, v);
      SymbolInside(m.units[u], s1, i);
    } else if v < u {
      UnitsApart(Lens(m, s1), v, u);
      SymbolInside(m.units[v], s1, j);
    } else if i < j {
      SymbolsApart(m.units[u], s1, i, j);
    } else {
      SymbolsApart(m.units[u], s1, j, i);
    }
  }
}
