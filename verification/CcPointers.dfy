/** What the data of a linked unit holds: every pointer the addresses say, and every
    other byte as it was. */
module CcPointers {
  import opened Options
  import opened Bytes
  import opened CcUnit
  import opened CcLink
  import opened CcRelink

  /** the k-th data relocation of symbol i exists and is applied */
  predicate Applied(syms: seq<Sym>, i: nat, k: nat) {
    i < |syms| && syms[i].defined && syms[i].sec == SEC_DATA && k < |syms[i].drel|
  }

  /** where it writes its eight bytes */
  function PlaceOf(syms: seq<Sym>, i: nat, k: nat): nat
    requires Applied(syms, i, k)
  {
    syms[i].offset + syms[i].drel[k].offset
  }

  predicate Hits(syms: seq<Sym>, i: nat, k: nat, b: nat) {
    Applied(syms, i, k) && PlaceOf(syms, i, k) <= b < PlaceOf(syms, i, k) + 8
  }

  /** no relocation behind this one, in the order of the lists, touches byte b */
  ghost predicate LastHit(syms: seq<Sym>, i: nat, k: nat, b: nat) {
    forall j: nat, l: nat {:trigger Hits(syms, j, l, b)} | Hits(syms, j, l, b) :: j < i || (j == i && l <= k)
  }

  /** the address a relocation stands for */
  function PointsTo(syms: seq<Sym>, addrs: Addrs, i: nat, k: nat): nat
    requires Applied(syms, i, k) && Known(addrs, syms[i].drel[k].sym)
  {
    (addrs[syms[i].drel[k].sym].value + syms[i].drel[k].addend) % 0x1_0000_0000_0000_0000
  }

  // ----- one byte -----

  lemma BlockSite(s: Sym, addrs: Addrs, k: nat, b: nat)
    requires s.defined && s.sec == SEC_DATA && k < |s.drel|
    ensures |Block(s, addrs)| == |s.drel| && Block(s, addrs)[k] == SiteFor(s.offset, s.drel[k], addrs)
    ensures Covers(Block(s, addrs)[k], b) <==> s.offset + s.drel[k].offset <= b < s.offset + s.drel[k].offset + 8
  {
  }

  /** a symbol without a relocation at b leaves the byte alone */
  lemma BlockMisses(syms: seq<Sym>, addrs: Addrs, i: nat, b: nat)
    requires i < |syms| && forall l: nat {:trigger Hits(syms, i, l, b)} :: !Hits(syms, i, l, b)
    ensures !Covered(Block(syms[i], addrs), b)
  {
    var ss := Block(syms[i], addrs);
    forall l: nat | l < |ss| ensures !Covers(ss[l], b) {
      BlockSite(syms[i], addrs, l, b);
      assert !Hits(syms, i, l, b);
    }
  }

  /** the last site to cover b decides */
  lemma {:induction false} LastCovers(ss: seq<Site>, k: nat, b: nat, was: byte)
    requires k < |ss| && Covers(ss[k], b) && forall l | k < l < |ss| :: !Covers(ss[l], b)
    ensures LastByte(ss, b, was) == ByteOf(ss[k], b)
    decreases |ss|
  {
    if k < |ss| - 1 { LastCovers(ss[..|ss| - 1], k, b, was); }
  }

  lemma BlockByte(syms: seq<Sym>, addrs: Addrs, i: nat, k: nat, b: nat, was: byte)
    requires Hits(syms, i, k, b) && forall l: nat {:trigger Hits(syms, i, l, b)} | l > k :: !Hits(syms, i, l, b)
    ensures var s := SiteFor(syms[i].offset, syms[i].drel[k], addrs);
      Covers(s, b) && LastByte(Block(syms[i], addrs), b, was) == ByteOf(s, b)
  {
    var ss := Block(syms[i], addrs);
    BlockSite(syms[i], addrs, k, b);
    forall l | k < l < |ss| ensures !Covers(ss[l], b) {
      BlockSite(syms[i], addrs, l, b);
      assert !Hits(syms, i, l, b);
    }
    LastCovers(ss, k, b, was);
  }

  /** the symbols in front hit b as before */
  lemma HitsFront(syms: seq<Sym>, b: nat)
    requires syms != []
    ensures
      var front := syms[..|syms| - 1];
      forall j: nat, l: nat {:trigger Hits(front, j, l, b)} ::
        Hits(front, j, l, b) <==> j < |front| && Hits(syms, j, l, b)
  {
  }

  lemma {:induction false} SitesByte(syms: seq<Sym>, addrs: Addrs, i: nat, k: nat, b: nat, was: byte)
    requires Hits(syms, i, k, b) && LastHit(syms, i, k, b)
    ensures var s := SiteFor(syms[i].offset, syms[i].drel[k], addrs);
      Covers(s, b) && LastByte(Sites(syms, addrs), b, was) == ByteOf(s, b)
    decreases |syms|
  {
    var n := |syms| - 1;
    var front, ss := Sites(syms[..n], addrs), Block(syms[n], addrs);
    LastJoin(front, ss, b, was);
    if i == n {
      forall l: nat {:trigger Hits(syms, i, l, b)} | l > k ensures !Hits(syms, i, l, b) {}
      BlockByte(syms, addrs, i, k, b, LastByte(front, b, was));
    } else {
      forall l: nat {:trigger Hits(syms, n, l, b)} ensures !Hits(syms, n, l, b) {}
      BlockMisses(syms, addrs, n, b);
      CoveredBytes(ss, b, LastByte(front, b, was));
      HitsFront(syms, b);
      SitesByte(syms[..n], addrs, i, k, b, was);
    }
  }

  /** no relocation touches byte b */
  ghost predicate Plain(syms: seq<Sym>, b: nat) {
    forall i: nat, k: nat {:trigger Hits(syms, i, k, b)} :: !Hits(syms, i, k, b)
  }

  lemma {:induction false} SitesMiss(syms: seq<Sym>, addrs: Addrs, b: nat, was: byte)
    requires Plain(syms, b)
    ensures LastByte(Sites(syms, addrs), b, was) == was
    decreases |syms|
  {
    if syms != [] {
      var n := |syms| - 1;
      var front, ss := Sites(syms[..n], addrs), Block(syms[n], addrs);
      LastJoin(front, ss, b, was);
      BlockMisses(syms, addrs, n, b);
      CoveredBytes(ss, b, LastByte(front, b, was));
      HitsFront(syms, b);
      SitesMiss(syms[..n], addrs, b, was);
    }
  }

  // ----- when data can be linked -----

  /** the relocation's symbol has an address, and its eight bytes are in the data */
  predicate CanApply(syms: seq<Sym>, addrs: Addrs, n: nat, i: nat, k: nat)
    requires Applied(syms, i, k)
  {
    Known(addrs, syms[i].drel[k].sym) && PlaceOf(syms, i, k) + 8 <= n
  }

  ghost predicate AllCanApply(syms: seq<Sym>, addrs: Addrs, n: nat) {
    forall i: nat, k: nat {:trigger Applied(syms, i, k)} | Applied(syms, i, k) :: CanApply(syms, addrs, n, i, k)
  }

  lemma BlockOk(syms: seq<Sym>, addrs: Addrs, n: nat, i: nat)
    requires i < |syms|
    ensures AllOk(Block(syms[i], addrs), n) <==>
      forall k: nat {:trigger Applied(syms, i, k)} | Applied(syms, i, k) :: CanApply(syms, addrs, n, i, k)
  {
    var ss := Block(syms[i], addrs);
    forall k: nat {:trigger Applied(syms, i, k)} | Applied(syms, i, k)
      ensures k < |ss| && (SiteOk(ss[k], n) <==> CanApply(syms, addrs, n, i, k))
    {
      BlockSite(syms[i], addrs, k, 0);
    }
    if forall k: nat {:trigger Applied(syms, i, k)} | Applied(syms, i, k) :: CanApply(syms, addrs, n, i, k) {
      forall k | 0 <= k < |ss| ensures SiteOk(ss[k], n) { assert Applied(syms, i, k); }
    }
  }

  /** Patching the data succeeds exactly when every relocation can be applied. */
  lemma {:induction false} DataLinks(syms: seq<Sym>, addrs: Addrs, n: nat)
    ensures AllOk(Sites(syms, addrs), n) <==> AllCanApply(syms, addrs, n)
    decreases |syms|
  {
    if syms != [] {
      var m := |syms| - 1;
      var front := syms[..m];
      DataLinks(front, addrs, n);
      OkJoin(Sites(front, addrs), Block(syms[m], addrs), n);
      BlockOk(syms, addrs, n, m);
      forall i: nat, k: nat {:trigger Applied(front, i, k)}
        ensures Applied(front, i, k) <==> i < m && Applied(syms, i, k)
      {
      }
      if AllCanApply(front, addrs, n) {
        forall i: nat, k: nat {:trigger Applied(syms, i, k)} | Applied(syms, i, k) && i < m
          ensures CanApply(syms, addrs, n, i, k)
        {
          assert Applied(front, i, k);
        }
      }
      if AllCanApply(syms, addrs, n) {
        forall i: nat, k: nat {:trigger Applied(front, i, k)} | Applied(front, i, k)
          ensures CanApply(front, addrs, n, i, k)
        {
          assert Applied(syms, i, k);
        }
      }
    }
  }

  // ----- whole pointers -----

  /** the pointer stored at an offset */
  function PointerAt(data: bytes, at: nat): nat
    requires at + 8 <= |data|
  {
    LittleEndian(data[at..at + 8])
  }

  lemma PointsToIs(syms: seq<Sym>, addrs: Addrs, i: nat, k: nat, a: nat)
    requires Applied(syms, i, k) && Known(addrs, syms[i].drel[k].sym) && addrs[syms[i].drel[k].sym].value == a
    ensures PointsTo(syms, addrs, i, k) == (a + syms[i].drel[k].addend) % 0x1_0000_0000_0000_0000
  {
  }

  /** none of the relocations behind this one touches its eight bytes */
  ghost predicate Stands(syms: seq<Sym>, i: nat, k: nat)
    requires Applied(syms, i, k)
  {
    forall b: nat {:trigger LastHit(syms, i, k, b)} | Hits(syms, i, k, b) :: LastHit(syms, i, k, b)
  }

  lemma PatchedPointer(data: bytes, syms: seq<Sym>, addrs: Addrs, i: nat, k: nat)
    requires AllOk(Sites(syms, addrs), |data|) && Applied(syms, i, k) && CanApply(syms, addrs, |data|, i, k)
    requires Stands(syms, i, k)
    ensures
      var at := PlaceOf(syms, i, k);
      PutAll(data, Sites(syms, addrs))[at..at + 8] == U64(PointsTo(syms, addrs, i, k))
  {
    var out, s := PutAll(data, Sites(syms, addrs)), SiteFor(syms[i].offset, syms[i].drel[k], addrs);
    forall b | s.at <= b < s.at + 8 ensures out[b] == ByteOf(s, b) { PatchedByte(data, syms, addrs, i, k, b); }
    AllBytes(out, s);
  }

  lemma PatchedByte(data: bytes, syms: seq<Sym>, addrs: Addrs, i: nat, k: nat, b: nat)
    requires AllOk(Sites(syms, addrs), |data|) && Hits(syms, i, k, b) && CanApply(syms, addrs, |data|, i, k)
    requires Stands(syms, i, k)
    ensures
      var s := SiteFor(syms[i].offset, syms[i].drel[k], addrs);
      Covers(s, b) && PutAll(data, Sites(syms, addrs))[b] == ByteOf(s, b)
  {
    assert LastHit(syms, i, k, b);
    PutAllByte(data, Sites(syms, addrs), b);
    SitesByte(syms, addrs, i, k, b, data[b]);
  }

  lemma AllBytes(data: bytes, s: Site)
    requires s.at + 8 <= |data| && forall b | s.at <= b < s.at + 8 :: data[b] == ByteOf(s, b)
    ensures data[s.at..s.at + 8] == U64(s.value)
  {
    var x, y := data[s.at..s.at + 8], U64(s.value);
    forall j: nat | j < 8 ensures x[j] == y[j] { assert x[j] == data[s.at + j] == ByteOf(s, s.at + j); }
  }

  /** After a successful link, a relocation that none behind it overwrites has left
      the address of its symbol plus its addend, modulo 2^64, at its place. */
  lemma PointerLinked(u: Unit, addrs: Addrs, base: nat, out: (bytes, bytes), i: nat, k: nat)
    requires RelocsOk(u.relocs, |u.code|) && LinkUnit(u, addrs, base) == Some(out) && Applied(u.syms, i, k)
    requires Stands(u.syms, i, k)
    ensures Known(addrs, u.syms[i].drel[k].sym) && PlaceOf(u.syms, i, k) + 8 <= |out.1| == |u.data|
    ensures PointerAt(out.1, PlaceOf(u.syms, i, k)) == PointsTo(u.syms, addrs, i, k)
  {
    DataLinks(u.syms, addrs, |u.data|);
    assert CanApply(u.syms, addrs, |u.data|, i, k);
    PatchedPointer(u.data, u.syms, addrs, i, k);
    U64Value(PointsTo(u.syms, addrs, i, k));
  }

  lemma PointerIs(u: Unit, addrs: Addrs, base: nat, out: (bytes, bytes), i: nat, k: nat, a: nat)
    requires RelocsOk(u.relocs, |u.code|) && LinkUnit(u, addrs, base) == Some(out) && Applied(u.syms, i, k)
    requires Stands(u.syms, i, k)
    requires Known(addrs, u.syms[i].drel[k].sym) && addrs[u.syms[i].drel[k].sym].value == a
    ensures PlaceOf(u.syms, i, k) + 8 <= |out.1|
    ensures
      PointerAt(out.1, PlaceOf(u.syms, i, k)) == (a + u.syms[i].drel[k].addend) % 0x1_0000_0000_0000_0000
  {
    PointerLinked(u, addrs, base, out, i, k);
    PointsToIs(u.syms, addrs, i, k, a);
  }

  /** Every byte that no relocation touches is the unit's own. */
  lemma RestUntouched(u: Unit, addrs: Addrs, base: nat, out: (bytes, bytes), b: nat)
    requires RelocsOk(u.relocs, |u.code|) && LinkUnit(u, addrs, base) == Some(out) && b < |u.data|
    requires Plain(u.syms, b)
    ensures |out.1| == |u.data| && out.1[b] == u.data[b]
  {
    PutAllByte(u.data, Sites(u.syms, addrs), b);
    SitesMiss(u.syms, addrs, b, u.data[b]);
  }

  /** Linking a unit succeeds exactly when its code can be patched and all its data
      relocations can be applied. */
  lemma LinksExactly(u: Unit, addrs: Addrs, base: nat)
    requires RelocsOk(u.relocs, |u.code|)
    ensures LinkUnit(u, addrs, base).Some? <==>
      PatchAll(u.code, u.relocs, FixerFor(addrs, base)).Some? && AllCanApply(u.syms, addrs, |u.data|)
  {
    DataLinks(u.syms, addrs, |u.data|);
  }
}
