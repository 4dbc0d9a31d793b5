/** The executable: sections placed one behind the other, every unit linked for where
    it lies, and what the loaded bytes say. */
module CcImage {
  import opened Options
  import opened Bytes
  import opened CcUnit
  import opened CcLink
  import opened CcLayout
  import opened CcRelink
  import opened CcPointers
  import opened CcResolve

  // ----- where everything goes -----

  function LenOf(u: Unit, sec: nat): nat {
    if sec == SEC_TEXT then |u.code| else if sec == SEC_DATA then |u.data| else u.bssLen
  }

  function LensOf(us: seq<Unit>, sec: nat): (ls: seq<nat>)
    ensures |ls| == |us| && forall v | 0 <= v < |us| :: ls[v] == LenOf(us[v], sec)
  {
    seq(|us|, v requires 0 <= v < |us| => LenOf(us[v], sec))
  }

  /** the address of unit v's part of a section */
  function PartAt(us: seq<Unit>, v: nat, sec: nat): nat
    requires v < |us|
  {
    SectionAt(Total(LensOf(us, SEC_TEXT)), Total(LensOf(us, SEC_DATA)), sec) + Base(LensOf(us, sec), v)
  }

  function BasesOf(us: seq<Unit>): (bs: seq<Bases>)
    ensures |bs| == |us|
  {
    seq(|us|, v requires 0 <= v < |us| =>
      Bases(PartAt(us, v, SEC_TEXT), PartAt(us, v, SEC_DATA), PartAt(us, v, SEC_BSS)))
  }

  /** the address of symbol i of unit v */
  function AddressOf(us: seq<Unit>, bs: seq<Bases>, v: nat, i: nat): nat
    requires |bs| == |us| && v < |us| && i < |us[v].syms|
  {
    OwnAddress(us[v].syms[i], bs[v])
  }

  /** unit v is what finalize_unit made of its symbols */
  ghost predicate Finalized(u: Unit, ss: seq<Global>) {
    && SymsOk(ss) && |u.syms| == |ss| && |u.data| == End(ss, SEC_DATA) && u.bssLen == End(ss, SEC_BSS)
    && forall i | 0 <= i < |ss| :: u.syms[i] == ss[i].sym.(offset := OffsetIn(ss, i))
  }

  ghost predicate AllFinalized(us: seq<Unit>, gs: seq<seq<Global>>) {
    |gs| == |us| && forall v | 0 <= v < |us| :: Finalized(us[v], gs[v])
  }

  /** The addresses relocations are resolved to are those of the layout. */
  lemma AddressesMeet(us: seq<Unit>, gs: seq<seq<Global>>, v: nat, i: nat, sec: nat)
    requires AllFinalized(us, gs)
    ensures
      var m := Image(LensOf(us, SEC_TEXT), gs);
      ImageOk(m) && (Placed(m, sec, v, i) ==> AddressOf(us, BasesOf(us), v, i) == Address(m, sec, v, i))
  {
    var m := Image(LensOf(us, SEC_TEXT), gs);
    assert Lens(m, SEC_DATA) == LensOf(us, SEC_DATA) && Lens(m, SEC_BSS) == LensOf(us, SEC_BSS);
  }

  /** code symbols lie in their unit's code, behind 0x11000 */
  lemma CodeAddress(us: seq<Unit>, v: nat, i: nat)
    requires v < |us| && i < |us[v].syms| && us[v].syms[i].sec == SEC_TEXT
    ensures AddressOf(us, BasesOf(us), v, i) == 0x1_1000 + Base(LensOf(us, SEC_TEXT), v) + us[v].syms[i].offset
  {
  }

  // ----- writing the file -----

  /** memcpy into a buffer */
  method CopyIn(buf: array<byte>, at: nat, src: bytes)
    requires at + |src| <= buf.Length
    modifies buf
    ensures forall k | 0 <= k < buf.Length ::
      buf[k] == if at <= k < at + |src| then src[k - at] else old(buf[k])
    ensures HasBytes(buf[..], at, src)
  {
    for i := 0 to |src|
      invariant forall k | 0 <= k < buf.Length :: buf[k] == if at <= k < at + i then src[k - at] else old(buf[k])
    {
      buf[at + i] := src[i];
    }
    assert buf[..][at..at + |src|] == src;
  }

  ghost predicate PartIs(buf: bytes, lens: seq<nat>, parts: seq<bytes>, v: nat)
    requires |lens| == |parts| && v < |parts|
  {
    HasBytes(buf, Base(lens, v), parts[v])
  }

  /** the parts of a section, each at its base */
  ghost predicate Joined(buf: bytes, lens: seq<nat>, parts: seq<bytes>, n: nat)
    requires |lens| == |parts| && n <= |parts|
  {
    |buf| == Total(lens) && forall v: nat {:trigger PartIs(buf, lens, parts, v)} | v < n :: PartIs(buf, lens, parts, v)
  }

  ghost predicate LensMatch(lens: seq<nat>, parts: seq<bytes>) {
    |lens| == |parts| && forall v | 0 <= v < |parts| :: |parts[v]| == lens[v]
  }

  /** a later part does not disturb an earlier one */
  lemma JoinOne(buf: bytes, buf': bytes, lens: seq<nat>, parts: seq<bytes>, v: nat)
    requires LensMatch(lens, parts) && v < |parts| && Joined(buf, lens, parts, v) && |buf'| == |buf|
    requires Base(lens, v) + lens[v] <= Total(lens)
    requires HasBytes(buf', Base(lens, v), parts[v]) && forall k | 0 <= k < Base(lens, v) :: buf'[k] == buf[k]
    ensures Joined(buf', lens, parts, v + 1)
  {
    forall w: nat {:trigger PartIs(buf', lens, parts, w)} | w < v + 1 ensures PartIs(buf', lens, parts, w) {
      if w < v {
        assert PartIs(buf, lens, parts, w);
        UnitsApart(lens, w, v);
        PartStays(buf, buf', Base(lens, w), parts[w], Base(lens, v));
      }
    }
  }

  lemma PartStays(buf: bytes, buf': bytes, at: nat, part: bytes, from: nat)
    requires HasBytes(buf, at, part) && |buf'| == |buf| && at + |part| <= from
    requires forall k | 0 <= k < |buf| && k < from :: buf'[k] == buf[k]
    ensures HasBytes(buf', at, part)
  {
    assert buf'[at..at + |part|] == buf[at..at + |part|];
  }

  /** the loops that copy the units' code, or data, together */
  method Join(parts: seq<bytes>, ghost lens: seq<nat>, bases: seq<nat>, total: nat) returns (buf: array<byte>)
    requires LensMatch(lens, parts) && |bases| == |parts| && total == Total(lens)
    requires forall v | 0 <= v < |bases| :: bases[v] == Base(lens, v)
    ensures fresh(buf) && Joined(buf[..], lens, parts, |parts|)
  {
    buf := new byte[total](_ => 0);
    for v := 0 to |parts|
      invariant Joined(buf[..], lens, parts, v)
    {
      ghost var was := buf[..];
      UnitInside(lens, v);
      CopyIn(buf, bases[v], parts[v]);
      JoinOne(was, buf[..], lens, parts, v);
    }
  }

  /** linked code and data of every unit stand where the unit is placed; the file is
      loaded at USER_BASE */
  ghost predicate Holds(bs: seq<Bases>, out: seq<(bytes, bytes)>, file: bytes)
    requires |out| == |bs|
  {
    forall v: nat {:trigger UnitHeld(bs, out, file, v)} | v < |bs| :: UnitHeld(bs, out, file, v)
  }

  ghost predicate UnitHeld(bs: seq<Bases>, out: seq<(bytes, bytes)>, file: bytes, v: nat)
    requires |out| == |bs| && v < |bs|
  {
    && bs[v].text >= USER_BASE && HasBytes(file, bs[v].text - USER_BASE, out[v].0)
    && bs[v].data >= USER_BASE && HasBytes(file, bs[v].data - USER_BASE, out[v].1)
  }

  ghost predicate SameLens(us: seq<Unit>, out: seq<(bytes, bytes)>) {
    |out| == |us| && forall v | 0 <= v < |us| :: |out[v].0| == |us[v].code| && |out[v].1| == |us[v].data|
  }

  /** the length of the file */
  function FileLen(us: seq<Unit>): nat {
    SectionAt(Total(LensOf(us, SEC_TEXT)), Total(LensOf(us, SEC_DATA)), SEC_DATA) - USER_BASE +
      Total(LensOf(us, SEC_DATA))
  }

  lemma LinkedLens(us: seq<Unit>, bs: seq<Bases>, out: seq<(bytes, bytes)>)
    requires |bs| == |us| && SitesInside(us) && Links(us, bs, out)
    ensures SameLens(us, out)
  {
    forall v | 0 <= v < |us| ensures |out[v].0| == |us[v].code| && |out[v].1| == |us[v].data| {
      LinkedOne(us, bs, out, v);
    }
  }

  /** bases in the address space, from those in the sections */
  function Bundle(text0: nat, text: seq<nat>, data0: nat, data: seq<nat>, bss0: nat, bss: seq<nat>): (bs: seq<Bases>)
    requires |text| == |data| == |bss|
    ensures |bs| == |text|
    ensures forall v | 0 <= v < |text| :: bs[v] == Bases(text0 + text[v], data0 + data[v], bss0 + bss[v])
  {
    seq(|text|, v requires 0 <= v < |text| => Bases(text0 + text[v], data0 + data[v], bss0 + bss[v]))
  }

  lemma BundleIs(us: seq<Unit>, textBases: seq<nat>, dataBases: seq<nat>, bssBases: seq<nat>, t: nat, d: nat)
    requires |textBases| == |dataBases| == |bssBases| == |us|
    requires forall v | 0 <= v < |us| :: textBases[v] == Base(LensOf(us, SEC_TEXT), v)
    requires forall v | 0 <= v < |us| :: dataBases[v] == Base(LensOf(us, SEC_DATA), v)
    requires forall v | 0 <= v < |us| :: bssBases[v] == Base(LensOf(us, SEC_BSS), v)
    requires t == Total(LensOf(us, SEC_TEXT)) && d == Total(LensOf(us, SEC_DATA))
    ensures Bundle(SectionAt(t, d, SEC_TEXT), textBases, SectionAt(t, d, SEC_DATA), dataBases,
      SectionAt(t, d, SEC_BSS), bssBases) == BasesOf(us)
  {
  }

  /** the placement half of link_and_write */
  method Place(us: seq<Unit>)
    returns (bs: seq<Bases>, textBases: seq<nat>, textLen: nat, dataBases: seq<nat>, dataLen: nat)
    ensures bs == BasesOf(us) && |textBases| == |dataBases| == |us|
    ensures forall v | 0 <= v < |us| :: textBases[v] == Base(LensOf(us, SEC_TEXT), v)
    ensures forall v | 0 <= v < |us| :: dataBases[v] == Base(LensOf(us, SEC_DATA), v)
    ensures textLen == Total(LensOf(us, SEC_TEXT)) && dataLen == Total(LensOf(us, SEC_DATA))
  {
    textBases, textLen := AssignBases(LensOf(us, SEC_TEXT));
    dataBases, dataLen := AssignBases(LensOf(us, SEC_DATA));
    var bssBases, _ := AssignBases(LensOf(us, SEC_BSS));
    var text0 := USER_BASE + TEXT_FILE_OFF;
    var data0 := AlignTo(text0 + textLen, 16);
    var bss0 := AlignTo(data0 + dataLen, 16);
    bs := Bundle(text0, textBases, data0, dataBases, bss0, bssBases);
    BundleIs(us, textBases, dataBases, bssBases, textLen, dataLen);
  }

  /** link_and_write behind the ELF header: bases, addresses, patching, and the file
      from its first section on */
  method LinkAndWrite(us: seq<Unit>) returns (ok: bool, file: bytes, ghost out: seq<(bytes, bytes)>)
    requires SitesInside(us)
    ensures ok ==> Links(us, BasesOf(us), out) && SameLens(us, out)
    ensures ok ==> |file| == FileLen(us) && Holds(BasesOf(us), out, file)
    ensures !ok ==> forall other :: !Links(us, BasesOf(us), other)
  {
    var bs, textBases, textLen, dataBases, dataLen := Place(us);
    var linked;
    ok, linked := LinkProgram(us, bs);
    out, file := linked, [];
    if ok { file := WriteFile(us, linked, textBases, textLen, dataBases, dataLen); }
  }

  /** the text and data arrays, and both in the file */
  method WriteFile(us: seq<Unit>, out: seq<(bytes, bytes)>, textBases: seq<nat>, textLen: nat, dataBases: seq<nat>,
      dataLen: nat)
    returns (file: bytes)
    requires SitesInside(us) && Links(us, BasesOf(us), out) && |textBases| == |dataBases| == |us|
    requires forall v | 0 <= v < |us| :: textBases[v] == Base(LensOf(us, SEC_TEXT), v)
    requires forall v | 0 <= v < |us| :: dataBases[v] == Base(LensOf(us, SEC_DATA), v)
    requires textLen == Total(LensOf(us, SEC_TEXT)) && dataLen == Total(LensOf(us, SEC_DATA))
    ensures SameLens(us, out) && |file| == FileLen(us) && Holds(BasesOf(us), out, file)
  {
    LinkedLens(us, BasesOf(us), out);
    var codes := seq(|us|, v requires 0 <= v < |us| => out[v].0);
    var datas := seq(|us|, v requires 0 <= v < |us| => out[v].1);
    var text := Join(codes, LensOf(us, SEC_TEXT), textBases, textLen);
    var data := Join(datas, LensOf(us, SEC_DATA), dataBases, dataLen);
    file := Assemble(text[..], data[..], AlignTo(USER_BASE + TEXT_FILE_OFF + textLen, 16) - USER_BASE);
    Assembled(us, out, file, text[..], data[..], codes, datas);
  }

  /** the two sections in one file */
  method Assemble(text: bytes, data: bytes, dataOff: nat) returns (file: bytes)
    requires TEXT_FILE_OFF + |text| <= dataOff
    ensures |file| == dataOff + |data| && HasBytes(file, TEXT_FILE_OFF, text) && HasBytes(file, dataOff, data)
  {
    var buf := new byte[dataOff + |data|](_ => 0);
    CopyIn(buf, TEXT_FILE_OFF, text);
    CopyIn(buf, dataOff, data);
    file := buf[..];
    assert file[TEXT_FILE_OFF..TEXT_FILE_OFF + |text|] == text;
    assert file[dataOff..dataOff + |data|] == data;
  }

  /** a part of a section that stands in the file */
  lemma PartInFile(file: bytes, off: nat, sec: bytes, at: nat, part: bytes)
    requires HasBytes(file, off, sec) && HasBytes(sec, at, part)
    ensures HasBytes(file, off + at, part)
  {
    var n := |part|;
    assert file[off..off + |sec|] == sec;
    forall j | 0 <= j < n ensures file[off + at..off + at + n][j] == part[j] {
      assert sec[at..at + n][j] == part[j];
      assert file[off..off + |sec|][at + j] == sec[at + j];
    }
  }

  lemma Assembled(us: seq<Unit>, out: seq<(bytes, bytes)>, file: bytes, text: bytes, data: bytes, codes: seq<bytes>,
        datas: seq<bytes>)
    requires |out| == |codes| == |datas| == |us|
    requires forall v | 0 <= v < |us| :: codes[v] == out[v].0 && datas[v] == out[v].1
    requires Joined(text, LensOf(us, SEC_TEXT), codes, |us|) && Joined(data, LensOf(us, SEC_DATA), datas, |us|)
    requires HasBytes(file, TEXT_FILE_OFF, text)
    requires HasBytes(file, SectionAt(Total(LensOf(us, SEC_TEXT)), Total(LensOf(us, SEC_DATA)), SEC_DATA) - USER_BASE,
      data)
    ensures Holds(BasesOf(us), out, file)
  {
    forall v: nat {:trigger UnitHeld(BasesOf(us), out, file, v)} | v < |us|
      ensures UnitHeld(BasesOf(us), out, file, v)
    {
      assert PartIs(text, LensOf(us, SEC_TEXT), codes, v) && PartIs(data, LensOf(us, SEC_DATA), datas, v);
      var data0 := SectionAt(Total(LensOf(us, SEC_TEXT)), Total(LensOf(us, SEC_DATA)), SEC_DATA) - USER_BASE;
      PartInFile(file, TEXT_FILE_OFF, text, Base(LensOf(us, SEC_TEXT), v), codes[v]);
      PartInFile(file, data0, data, Base(LensOf(us, SEC_DATA), v), datas[v]);
    }
  }

  // ----- what the loaded bytes say -----

  /** symbol x of unit w is the definition that symbol j of unit v refers to */
  predicate Denotes(us: seq<Unit>, v: nat, j: nat, w: nat, x: nat)
    requires v < |us| && j < |us[v].syms|
  {
    if us[v].syms[j].defined then w == v && x == j else Exports(us, LinkSym(us[v].syms[j].name, w, x))
  }

  /** every address a unit is linked with is that of the definition */
  lemma ResolvedTo(us: seq<Unit>, bs: seq<Bases>, v: nat, j: nat) returns (w: nat, x: nat)
    requires |bs| == |us| && v < |us| && Unique(us) && Known(AddrsOf(us, bs, v), j)
    ensures j < |us[v].syms| && Denotes(us, v, j, w, x) && w < |us| && x < |us[w].syms|
    ensures AddrsOf(us, bs, v)[j].value == AddressOf(us, bs, w, x)
  {
    ResolvesRight(us, bs, v, j);
    TableFinds(us, us[v].syms[j].name);
    if us[v].syms[j].defined {
      w, x := v, j;
    } else {
      var e := Lookup(Table(us), us[v].syms[j].name).value;
      w, x := e.u, e.i;
    }
  }

  lemma LinkedOne(us: seq<Unit>, bs: seq<Bases>, out: seq<(bytes, bytes)>, v: nat)
    requires |bs| == |us| && SitesInside(us) && Links(us, bs, out) && v < |us|
    ensures RelocsOk(us[v].relocs, |us[v].code|) && Unique(us)
    ensures LinkUnit(us[v], AddrsOf(us, bs, v), bs[v].text) == Some(out[v])
  {
    assert UnitLinked(us, bs, v, out[v]);
  }

  /** where a symbol of the data section is in the file */
  lemma DataAddress(us: seq<Unit>, bs: seq<Bases>, v: nat, i: nat)
    requires |bs| == |us| && v < |us| && i < |us[v].syms| && us[v].syms[i].sec == SEC_DATA
    ensures AddressOf(us, bs, v, i) == bs[v].data + us[v].syms[i].offset
  {
  }

  /** the eight bytes of a relocation in the linked data of its unit */
  lemma PointerInUnit(us: seq<Unit>, bs: seq<Bases>, out: seq<(bytes, bytes)>, v: nat, i: nat, k: nat)
    returns (w: nat, x: nat)
    requires |bs| == |us| && SitesInside(us) && Links(us, bs, out)
    requires v < |us| && Applied(us[v].syms, i, k) && Stands(us[v].syms, i, k)
    ensures
      var (d, at, data) := (us[v].syms[i].drel[k], PlaceOf(us[v].syms, i, k), out[v].1);
      && d.sym < |us[v].syms| && Denotes(us, v, d.sym, w, x) && w < |us| && x < |us[w].syms|
      && at + 8 <= |data| && PointerAt(data, at) == (AddressOf(us, bs, w, x) + d.addend) % 0x1_0000_0000_0000_0000
  {
    var d := us[v].syms[i].drel[k];
    LinkedOne(us, bs, out, v);
    PointerLinked(us[v], AddrsOf(us, bs, v), bs[v].text, out[v], i, k);
    w, x := ResolvedTo(us, bs, v, d.sym);
    PointerIs(us[v], AddrsOf(us, bs, v), bs[v].text, out[v], i, k, AddressOf(us, bs, w, x));
  }

  /** A pointer in the initialised data of a program holds, in the loaded file at the
      address of its variable, the address of the definition it refers to, plus its
      addend. */
  lemma PointerLoaded(us: seq<Unit>, bs: seq<Bases>, out: seq<(bytes, bytes)>, file: bytes, v: nat, i: nat, k: nat)
    returns (w: nat, x: nat)
    requires |bs| == |us| && SitesInside(us) && Links(us, bs, out) && Holds(bs, out, file)
    requires v < |us| && Applied(us[v].syms, i, k) && Stands(us[v].syms, i, k)
    ensures
      var d := us[v].syms[i].drel[k];
      var at := AddressOf(us, bs, v, i) + d.offset - USER_BASE;
      && d.sym < |us[v].syms| && Denotes(us, v, d.sym, w, x) && w < |us| && x < |us[w].syms|
      && 0 <= at && at + 8 <= |file|
      && PointerAt(file, at) == (AddressOf(us, bs, w, x) + d.addend) % 0x1_0000_0000_0000_0000
  {
    w, x := PointerInUnit(us, bs, out, v, i, k);
    DataAddress(us, bs, v, i);
    assert UnitHeld(bs, out, file, v);
    PointerMoved(out[v].1, PlaceOf(us[v].syms, i, k), file, bs[v].data - USER_BASE);
  }

  lemma PointerMoved(data: bytes, at: nat, file: bytes, off: nat)
    requires HasBytes(file, off, data) && at + 8 <= |data|
    ensures off + at + 8 <= |file| && PointerAt(file, off + at) == PointerAt(data, at)
  {
    forall j {:trigger data[j]} | 0 <= j < |data| ensures file[off + j] == data[j] { ByteMoved(data, j, file, off); }
    assert file[off + at..off + at + 8] == data[at..at + 8];
  }

  lemma ByteMoved(data: bytes, at: nat, file: bytes, off: nat)
    requires HasBytes(file, off, data) && at < |data|
    ensures off + at < |file| && file[off + at] == data[at]
  {
    assert file[off..off + |data|][at] == file[off + at];
  }

  /** a byte of a variable in the linked data of its unit */
  lemma InitialInUnit(us: seq<Unit>, bs: seq<Bases>, out: seq<(bytes, bytes)>, g: Global, v: nat, i: nat, b: nat)
    requires |bs| == |us| && SitesInside(us) && Links(us, bs, out)
    requires v < |us| && i < |us[v].syms| && SymOk(g) && b < g.sym.size
    requires HasBytes(us[v].data, us[v].syms[i].offset, Initial(g)) && Plain(us[v].syms, us[v].syms[i].offset + b)
    ensures
      var at := us[v].syms[i].offset + b;
      at < |out[v].1| && out[v].1[at] == Initial(g)[b]
  {
    var at := us[v].syms[i].offset;
    LinkedOne(us, bs, out, v);
    ByteMoved(Initial(g), b, us[v].data, at);
    RestUntouched(us[v], AddrsOf(us, bs, v), bs[v].text, out[v], at + b);
  }

  /** And every byte of a variable that no relocation touches is the initial one: its
      initialiser's, or zero. */
  lemma InitialLoaded(us: seq<Unit>, bs: seq<Bases>, out: seq<(bytes, bytes)>, file: bytes, g: Global, v: nat, i: nat,
        b: nat)
    requires |bs| == |us| && SitesInside(us) && Links(us, bs, out) && Holds(bs, out, file)
    requires v < |us| && i < |us[v].syms| && us[v].syms[i].sec == SEC_DATA && SymOk(g) && b < g.sym.size
    requires HasBytes(us[v].data, us[v].syms[i].offset, Initial(g)) && Plain(us[v].syms, us[v].syms[i].offset + b)
    ensures
      var at := AddressOf(us, bs, v, i) + b - USER_BASE;
      0 <= at < |file| && file[at] == Initial(g)[b]
  {
    InitialInUnit(us, bs, out, g, v, i, b);
    DataAddress(us, bs, v, i);
    assert UnitHeld(bs, out, file, v);
    ByteMoved(out[v].1, us[v].syms[i].offset + b, file, bs[v].data - USER_BASE);
  }
}
