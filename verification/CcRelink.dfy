/** Linking a unit: patching its code and data, and whether a unit that has been
    through an object file links to the same bytes. */
module CcRelink {
  import opened Options
  import opened RvArith
  import opened Bytes
  import opened CcUnit
  import opened CcLink
  import opened CcObject

  // ----- patching data -----

  /** eight bytes to be written at an offset; known unless their symbol is undefined */
  datatype Site = Site(at: nat, value: u64, known: bool)

  type u64 = x: int | 0 <= x < M64

  predicate SiteOk(s: Site, n: nat) { s.known && s.at + 8 <= n }

  predicate AllOk(ss: seq<Site>, n: nat) { forall k | 0 <= k < |ss| :: SiteOk(ss[k], n) }

  /** put64 */
  function Put(data: bytes, s: Site): (r: bytes)
    requires SiteOk(s, |data|)
    ensures |r| == |data|
  {
    data[..s.at] + U64(s.value) + data[s.at + 8..]
  }

  function PutAll(data: bytes, ss: seq<Site>): (r: bytes)
    requires AllOk(ss, |data|)
    ensures |r| == |data|
    decreases |ss|
  {
    if ss == [] then data else Put(PutAll(data, ss[..|ss| - 1]), ss[|ss| - 1])
  }

  predicate Covers(s: Site, k: nat) { s.at <= k < s.at + 8 }

  predicate Covered(ss: seq<Site>, k: nat) { exists i: nat | i < |ss| :: Covers(ss[i], k) }

  /** the byte s writes at k */
  function ByteOf(s: Site, k: nat): byte
    requires Covers(s, k)
  {
    U64(s.value)[k - s.at]
  }

  /** the byte the last site covering k writes; was, if none does */
  function LastByte(ss: seq<Site>, k: nat, was: byte): byte
  {
    if ss == [] then was
    else if Covers(ss[|ss| - 1], k) then ByteOf(ss[|ss| - 1], k)
    else LastByte(ss[..|ss| - 1], k, was)
  }

  /** the byte the first site covering k writes; was, if none does */
  function FirstByte(ss: seq<Site>, k: nat, was: byte): byte
  {
    if ss == [] then was else if Covers(ss[0], k) then ByteOf(ss[0], k) else FirstByte(ss[1..], k, was)
  }

  /** the last write wins */
  lemma {:induction false} PutAllByte(data: bytes, ss: seq<Site>, k: nat)
    requires AllOk(ss, |data|) && k < |data|
    ensures PutAll(data, ss)[k] == LastByte(ss, k, data[k])
    decreases |ss|
  {
    if ss != [] { PutAllByte(data, ss[..|ss| - 1], k); }
  }

  lemma {:induction false} LastOfReversed(ss: seq<Site>, k: nat, was: byte)
    ensures LastByte(Reversed(ss), k, was) == FirstByte(ss, k, was)
    decreases |ss|
  {
    if ss != [] {
      var vs := Reversed(ss);
      assert vs[..|vs| - 1] == Reversed(ss[1..]);
      LastOfReversed(ss[1..], k, was);
    }
  }

  /** the first and the last site covering byte k write the same */
  predicate EndsAgree(ss: seq<Site>, k: nat)
  {
    Covered(ss, k) ==> FirstByte(ss, k, 0) == LastByte(ss, k, 0)
  }

  lemma {:induction false} CoveredBytes(ss: seq<Site>, k: nat, was: byte)
    ensures Covered(ss, k) ==>
      FirstByte(ss, k, was) == FirstByte(ss, k, 0) && LastByte(ss, k, was) == LastByte(ss, k, 0)
    ensures !Covered(ss, k) ==> FirstByte(ss, k, was) == was && LastByte(ss, k, was) == was
  {
    FirstCovered(ss, k, was);
    LastCovered(ss, k, was);
  }

  lemma {:induction false} FirstCovered(ss: seq<Site>, k: nat, was: byte)
    ensures FirstByte(ss, k, was) == if Covered(ss, k) then FirstByte(ss, k, 0) else was
    decreases |ss|
  {
    if ss != [] && !Covers(ss[0], k) {
      FirstCovered(ss[1..], k, was);
      if Covered(ss, k) {
        var i: nat :| i < |ss| && Covers(ss[i], k);
        assert Covers(ss[1..][i - 1], k);
      }
    }
  }

  lemma {:induction false} LastCovered(ss: seq<Site>, k: nat, was: byte)
    ensures LastByte(ss, k, was) == if Covered(ss, k) then LastByte(ss, k, 0) else was
    decreases |ss|
  {
    if ss != [] && !Covers(ss[|ss| - 1], k) {
      var front := ss[..|ss| - 1];
      LastCovered(front, k, was);
      if Covered(ss, k) {
        var i: nat :| i < |ss| && Covers(ss[i], k);
        assert Covers(front[i], k);
      }
    }
  }

  lemma ReversedByte(data: bytes, ss: seq<Site>, k: nat)
    requires AllOk(ss, |data|) && AllOk(Reversed(ss), |data|) && k < |data|
    ensures PutAll(data, Reversed(ss))[k] == PutAll(data, ss)[k] <==> EndsAgree(ss, k)
  {
    PutAllByte(data, Reversed(ss), k);
    PutAllByte(data, ss, k);
    LastOfReversed(ss, k, data[k]);
    CoveredBytes(ss, k, data[k]);
  }

  /** When reversing a list of data relocations is harmless: exactly when on every
      byte the first and the last of them write the same. */
  lemma ReversalExactly(data: bytes, ss: seq<Site>)
    requires AllOk(ss, |data|)
    ensures AllOk(Reversed(ss), |data|)
    ensures PutAll(data, Reversed(ss)) == PutAll(data, ss) <==> forall k: nat | k < |data| :: EndsAgree(ss, k)
  {
    forall k: nat | k < |data|
      ensures PutAll(data, Reversed(ss))[k] == PutAll(data, ss)[k] <==> EndsAgree(ss, k)
    {
      ReversedByte(data, ss, k);
    }
    SameExactly(PutAll(data, Reversed(ss)), PutAll(data, ss), (k: nat) => EndsAgree(ss, k));
  }

  /** two byte strings that agree at k exactly when P(k) */
  lemma SameExactly(x: bytes, y: bytes, P: nat -> bool)
    requires |x| == |y| && forall k: nat | k < |x| :: x[k] == y[k] <==> P(k)
    ensures x == y ==> forall k: nat | k < |x| :: P(k)
    ensures x != y ==> exists k: nat :: k < |x| && !P(k)
  {
  }

  // ----- the data relocations of a unit -----

  function SiteFor(offset: nat, d: DataReloc, addrs: Addrs): Site {
    var known := Known(addrs, d.sym);
    Site(offset + d.offset, if known then Target(addrs, d.sym, d.addend) else 0, known)
  }

  /** what is written into the data of one symbol, from the head of its list */
  function Block(s: Sym, addrs: Addrs): seq<Site> {
    if s.defined && s.sec == SEC_DATA
    then seq(|s.drel|, k requires 0 <= k < |s.drel| => SiteFor(s.offset, s.drel[k], addrs))
    else []
  }

  /** and of all symbols, in list order */
  function Sites(syms: seq<Sym>, addrs: Addrs): seq<Site> {
    if syms == [] then [] else Sites(syms[..|syms| - 1], addrs) + Block(syms[|syms| - 1], addrs)
  }

  lemma BlockTurned(s: Sym, addrs: Addrs)
    ensures Block(Turned(s), addrs) == Reversed(Block(s, addrs))
  {
    var x, y := Block(Turned(s), addrs), Reversed(Block(s, addrs));
    forall k | 0 <= k < |x| ensures k < |y| && x[k] == y[k] {}
  }

  lemma {:induction false} LastJoin(a: seq<Site>, b: seq<Site>, k: nat, was: byte)
    ensures LastByte(a + b, k, was) == LastByte(b, k, LastByte(a, k, was))
    decreases |b|
  {
    if b == [] {
      assert a + b == a;
    } else {
      var n := |b| - 1;
      assert (a + b)[..|a + b| - 1] == a + b[..n] && (a + b)[|a + b| - 1] == b[n];
      LastJoin(a, b[..n], k, was);
    }
  }

  /** the last symbol that has a relocation covering byte k has the first and the
      last of those write the same there */
  predicate Settled(syms: seq<Sym>, addrs: Addrs, k: nat) {
    syms == [] ||
    var b := Block(syms[|syms| - 1], addrs);
    if Covered(b, k) then EndsAgree(b, k) else Settled(syms[..|syms| - 1], addrs, k)
  }

  ghost predicate AllSettled(syms: seq<Sym>, addrs: Addrs, n: nat) {
    forall k: nat {:trigger Settled(syms, addrs, k)} | k < n :: Settled(syms, addrs, k)
  }

  lemma {:induction false} TurnedByte(syms: seq<Sym>, addrs: Addrs, k: nat, was: byte)
    ensures
      var turned := Partly(syms, |syms|);
      LastByte(Sites(turned, addrs), k, was) == LastByte(Sites(syms, addrs), k, was) <==> Settled(syms, addrs, k)
    decreases |syms|
  {
    if syms != [] {
      var n := |syms| - 1;
      var turned, front, b := Partly(syms, n + 1), syms[..n], Block(syms[n], addrs);
      assert turned[..n] == Partly(front, n) && turned[n] == Turned(syms[n]);
      TurnedByte(front, addrs, k, was);
      BlockTurned(syms[n], addrs);
      LastJoin(Sites(front, addrs), b, k, was);
      LastJoin(Sites(turned[..n], addrs), Reversed(b), k, was);
      var x, y := LastByte(Sites(turned[..n], addrs), k, was), LastByte(Sites(front, addrs), k, was);
      LastOfReversed(b, k, x);
      CoveredBytes(b, k, x);
      CoveredBytes(b, k, y);
    }
  }

  lemma {:induction false} TurnedOk(syms: seq<Sym>, addrs: Addrs, n: nat)
    ensures AllOk(Sites(Partly(syms, |syms|), addrs), n) <==> AllOk(Sites(syms, addrs), n)
    decreases |syms|
  {
    if syms != [] {
      var m := |syms| - 1;
      var turned, front := Partly(syms, m + 1), syms[..m];
      assert turned[..m] == Partly(front, m) && turned[m] == Turned(syms[m]);
      TurnedOk(front, addrs, n);
      BlockTurned(syms[m], addrs);
      OkJoin(Sites(front, addrs), Block(syms[m], addrs), n);
      OkJoin(Sites(turned[..m], addrs), Reversed(Block(syms[m], addrs)), n);
      OkReversed(Block(syms[m], addrs), n);
    }
  }

  lemma OkJoin(a: seq<Site>, b: seq<Site>, n: nat)
    ensures AllOk(a + b, n) <==> AllOk(a, n) && AllOk(b, n)
  {
    if AllOk(a + b, n) {
      forall k | 0 <= k < |a| ensures SiteOk(a[k], n) { assert (a + b)[k] == a[k]; }
      forall k | 0 <= k < |b| ensures SiteOk(b[k], n) { assert (a + b)[|a| + k] == b[k]; }
    }
  }

  lemma OkReversed(a: seq<Site>, n: nat)
    ensures AllOk(Reversed(a), n) <==> AllOk(a, n)
  {
    if AllOk(Reversed(a), n) {
      forall k | 0 <= k < |a| ensures SiteOk(a[k], n) { assert Reversed(a)[|a| - 1 - k] == a[k]; }
    }
  }

  lemma SettledByte(data: bytes, syms: seq<Sym>, addrs: Addrs, ts: seq<Site>, k: nat)
    requires ts == Sites(Partly(syms, |syms|), addrs) && AllOk(ts, |data|) && AllOk(Sites(syms, addrs), |data|)
    requires k < |data|
    ensures PutAll(data, ts)[k] == PutAll(data, Sites(syms, addrs))[k] <==> Settled(syms, addrs, k)
  {
    PutAllByte(data, ts, k);
    PutAllByte(data, Sites(syms, addrs), k);
    TurnedByte(syms, addrs, k, data[k]);
  }

  /** The data of a unit whose lists are reversed is patched to the same bytes if
      and only if every byte is settled. */
  lemma LinkedDataExactly(data: bytes, syms: seq<Sym>, addrs: Addrs)
    requires AllOk(Sites(syms, addrs), |data|)
    ensures AllOk(Sites(Partly(syms, |syms|), addrs), |data|)
    ensures
      var ts := Sites(Partly(syms, |syms|), addrs);
      PutAll(data, ts) == PutAll(data, Sites(syms, addrs)) <==> AllSettled(syms, addrs, |data|)
  {
    TurnedOk(syms, addrs, |data|);
    var ts, ss := Sites(Partly(syms, |syms|), addrs), Sites(syms, addrs);
    var x, y := PutAll(data, ts), PutAll(data, ss);
    forall k: nat | k < |x| ensures x[k] == y[k] <==> Settled(syms, addrs, k) { SettledByte(data, syms, addrs, ts, k); }
    var P := (k: nat) => Settled(syms, addrs, k);
    SameExactly(x, y, P);
    if x == y {
      forall k: nat {:trigger Settled(syms, addrs, k)} | k < |data| ensures Settled(syms, addrs, k) { assert P(k); }
    } else {
      var k: nat :| k < |x| && !P(k);
      assert !Settled(syms, addrs, k);
    }
  }

  /** no two of the sites share a byte */
  predicate Separate(ss: seq<Site>) {
    forall i, j | 0 <= i < j < |ss| :: ss[i].at + 8 <= ss[j].at || ss[j].at + 8 <= ss[i].at
  }

  /** the usual case: no symbol has two relocations on one byte */
  lemma {:induction false} SeparateSettled(syms: seq<Sym>, addrs: Addrs, k: nat)
    requires forall i | 0 <= i < |syms| :: Separate(Block(syms[i], addrs))
    ensures Settled(syms, addrs, k)
    decreases |syms|
  {
    if syms != [] {
      var b := Block(syms[|syms| - 1], addrs);
      if Covered(b, k) {
        var i: nat :| i < |b| && Covers(b[i], k);
        OneWriter(b, i, k);
      } else {
        SeparateSettled(syms[..|syms| - 1], addrs, k);
      }
    }
  }

  lemma {:induction false} OneWriter(ss: seq<Site>, i: nat, k: nat)
    requires Separate(ss) && i < |ss| && Covers(ss[i], k)
    ensures FirstByte(ss, k, 0) == ByteOf(ss[i], k) == LastByte(ss, k, 0)
  {
    FirstIs(ss, i, k);
    LastIs(ss, i, k);
  }

  lemma {:induction false} FirstIs(ss: seq<Site>, i: nat, k: nat)
    requires Separate(ss) && i < |ss| && Covers(ss[i], k)
    ensures FirstByte(ss, k, 0) == ByteOf(ss[i], k)
    decreases |ss|
  {
    if i > 0 { FirstIs(ss[1..], i - 1, k); }
  }

  lemma {:induction false} LastIs(ss: seq<Site>, i: nat, k: nat)
    requires Separate(ss) && i < |ss| && Covers(ss[i], k)
    ensures LastByte(ss, k, 0) == ByteOf(ss[i], k)
    decreases |ss|
  {
    if i < |ss| - 1 { LastIs(ss[..|ss| - 1], i, k); }
  }

  /** Two lists of sites with the same members patch the data alike, in whatever
      order, as long as the sites do not overlap. */
  lemma PutOrder(data: bytes, ss: seq<Site>, ts: seq<Site>)
    requires Separate(ss) && Separate(ts) && (forall s :: s in ss <==> s in ts)
    requires AllOk(ss, |data|) && AllOk(ts, |data|)
    ensures PutAll(data, ss) == PutAll(data, ts)
  {
    var x, y := PutAll(data, ss), PutAll(data, ts);
    forall k: nat | k < |data| ensures x[k] == y[k] {
      PutAllByte(data, ss, k);
      PutAllByte(data, ts, k);
      CoveredBytes(ss, k, data[k]);
      CoveredBytes(ts, k, data[k]);
      if Covered(ss, k) {
        var i: nat :| i < |ss| && Covers(ss[i], k);
        assert ss[i] in ts;
        var j: nat :| j < |ts| && ts[j] == ss[i];
        OneWriter(ss, i, k);
        OneWriter(ts, j, k);
      } else {
        forall j: nat | j < |ts| ensures !Covers(ts[j], k) { assert ts[j] in ss; }
      }
    }
  }

  // ----- linking a unit -----

  /** the code and data of a unit after patch_unit_relocs, for the addresses of its
      symbols and the position of its code; None is one of the fatal errors */
  function LinkUnit(u: Unit, addrs: Addrs, base: nat): Option<(bytes, bytes)>
    requires RelocsOk(u.relocs, |u.code|)
  {
    match PatchAll(u.code, u.relocs, FixerFor(addrs, base))
    case None => None
    case Some(code) =>
      var ss := Sites(u.syms, addrs);
      if AllOk(ss, |u.data|) then Some((code, PutAll(u.data, ss))) else None
  }

  /** patch_unit_relocs */
  method PatchUnit(u: Unit, addrs: Addrs, base: nat, code: array<byte>, data: array<byte>) returns (ok: bool)
    requires RelocsOk(u.relocs, |u.code|) && code != data && code[..] == u.code && data[..] == u.data
    modifies code, data
    ensures ok <==> LinkUnit(u, addrs, base).Some?
    ensures ok ==> LinkUnit(u, addrs, base) == Some((code[..], data[..]))
  {
    assert |code[..]| == code.Length && |data[..]| == data.Length;
    ok := PatchCode(code, u.relocs, FixerFor(addrs, base));
    if ok { ok := PatchData(u.syms, addrs, data); }
  }

  /** the outer loop, over the symbols */
  method PatchData(syms: seq<Sym>, addrs: Addrs, data: array<byte>) returns (ok: bool)
    modifies data
    ensures ok <==> AllOk(Sites(syms, addrs), data.Length)
    ensures ok ==> data[..] == PutAll(old(data[..]), Sites(syms, addrs))
  {
    ghost var data0 := data[..];
    for i := 0 to |syms|
      invariant AllOk(Sites(syms[..i], addrs), data.Length) && data[..] == PutAll(data0, Sites(syms[..i], addrs))
    {
      assert syms[..i + 1][..i] == syms[..i] && syms[..i + 1][i] == syms[i];
      OkJoin(Sites(syms[..i], addrs), Block(syms[i], addrs), data.Length);
      SitesPrefix(syms, addrs, i + 1, data.Length);
      var fits := PatchBlock(syms[i], addrs, data);
      if !fits { return false; }
      PutJoin(data0, Sites(syms[..i], addrs), Block(syms[i], addrs));
    }
    assert syms[..|syms|] == syms;
    ok := true;
  }

  /** the inner loop, over the data relocations of one symbol */
  method PatchBlock(s: Sym, addrs: Addrs, data: array<byte>) returns (ok: bool)
    modifies data
    ensures ok <==> AllOk(Block(s, addrs), data.Length)
    ensures ok ==> data[..] == PutAll(old(data[..]), Block(s, addrs))
  {
    if !s.defined || s.sec != SEC_DATA { return true; }
    ghost var data0, b := data[..], Block(s, addrs);
    for k := 0 to |s.drel|
      invariant AllOk(b[..k], data.Length) && data[..] == PutAll(data0, b[..k])
    {
      var site := SiteFor(s.offset, s.drel[k], addrs);
      assert b[k] == site && b[..k + 1][..k] == b[..k];
      if !site.known || site.at + 8 > data.Length { return false; }
      PutInPlace(data, site);
    }
    assert b[..|b|] == b;
    ok := true;
  }

  lemma {:induction false} PutJoin(data: bytes, a: seq<Site>, b: seq<Site>)
    requires AllOk(a, |data|) && AllOk(b, |data|)
    ensures AllOk(a + b, |data|) && PutAll(data, a + b) == PutAll(PutAll(data, a), b)
    decreases |b|
  {
    if b == [] {
      assert a + b == a;
    } else {
      var n := |b| - 1;
      assert (a + b)[..|a + b| - 1] == a + b[..n] && (a + b)[|a + b| - 1] == b[n];
      PutJoin(data, a, b[..n]);
    }
  }

  /** a site that fails for the first symbols fails for all */
  lemma {:induction false} SitesPrefix(syms: seq<Sym>, addrs: Addrs, i: nat, n: nat)
    requires i <= |syms|
    ensures AllOk(Sites(syms, addrs), n) ==> AllOk(Sites(syms[..i], addrs), n)
    decreases |syms|
  {
    if i == |syms| {
      assert syms[..i] == syms;
    } else {
      var front := syms[..|syms| - 1];
      assert front[..i] == syms[..i];
      SitesPrefix(front, addrs, i, n);
      OkJoin(Sites(front, addrs), Block(syms[|syms| - 1], addrs), n);
    }
  }

  method PutInPlace(data: array<byte>, s: Site)
    requires SiteOk(s, data.Length)
    modifies data
    ensures data[..] == Put(old(data[..]), s)
  {
    var b := U64(s.value);
    for i := 0 to 8
      invariant forall k | 0 <= k < data.Length ::
        data[k] == if s.at <= k < s.at + i then b[k - s.at] else old(data[k])
    {
      data[s.at + i] := b[i];
    }
    assert data[..] == old(data[..])[..s.at] + b + old(data[..])[s.at + 8..];
  }

  // ----- through an object file -----

  lemma MirrorLinks(u: Unit, addrs: Addrs, base: nat)
    requires RelocsOk(u.relocs, |u.code|) && SitesApart(u.relocs)
    ensures
      var v := Mirror(u);
      && RelocsOk(v.relocs, |v.code|)
      && var x, y := LinkUnit(u, addrs, base), LinkUnit(v, addrs, base);
      && (x.Some? <==> y.Some?) && (x.Some? ==> y.value.0 == x.value.0)
      && (x == y <==> x.None? || AllSettled(u.syms, addrs, |u.data|))
  {
    PatchReversed(u.code, u.relocs, FixerFor(addrs, base));
    TurnedOk(u.syms, addrs, |u.data|);
    if AllOk(Sites(u.syms, addrs), |u.data|) { LinkedDataExactly(u.data, u.syms, addrs); }
  }

  /** Linking the unit read back from its object file: it succeeds when linking the
      unit in memory does, and gives the same code; it gives the same data exactly
      when every byte is settled. */
  lemma RelinkExactly(u: Unit, addrs: Addrs, base: nat)
    requires Fits(u) && RelocsOk(u.relocs, |u.code|) && SitesApart(u.relocs)
    ensures ReadUnit(WriteUnit(u)).Some?
    ensures
      var v := ReadUnit(WriteUnit(u)).value;
      && RelocsOk(v.relocs, |v.code|)
      && var x, y := LinkUnit(u, addrs, base), LinkUnit(v, addrs, base);
      && (x.Some? <==> y.Some?) && (x.Some? ==> y.value.0 == x.value.0)
      && (x == y <==> x.None? || AllSettled(u.syms, addrs, |u.data|))
  {
    ObjectRoundTrip(u);
    MirrorLinks(u, addrs, base);
  }

  /** char a[2], b[2]; struct S { char *p; }; struct S s = { .p = a, .p = b };
      has two relocations at one place, the later one at the head of the list */
  function Twice(): Unit {
    var a := Sym([97], SEC_BSS, 0, 2, 1, true, false, []);
    var b := Sym([98], SEC_BSS, 2, 2, 1, true, false, []);
    var s := Sym([115], SEC_DATA, 0, 8, 8, true, false, [DataReloc(0, 1, 0), DataReloc(0, 0, 0)]);
    Unit([], Zeros(8), 4, [a, b, s], [])
  }

  /** The order matters: this unit links to different data through a file. */
  lemma RelinkDiffers()
    ensures
      var addrs := [Some(0x1_1010), Some(0x1_1012), Some(0x1_1000)];
      var u := Twice();
      Fits(u) && ReadUnit(WriteUnit(u)).Some? && RelocsOk(u.relocs, |u.code|) &&
      var v := ReadUnit(WriteUnit(u)).value;
      RelocsOk(v.relocs, |v.code|) && LinkUnit(u, addrs, 0).Some? && LinkUnit(v, addrs, 0) != LinkUnit(u, addrs, 0)
  {
    var addrs, u := [Some(0x1_1010), Some(0x1_1012), Some(0x1_1000)], Twice();
    TwiceFits();
    TwiceUnsettled(addrs);
    RelinkExactly(u, addrs, 0);
  }

  lemma TwiceFits()
    ensures Fits(Twice()) && RelocsOk(Twice().relocs, 0) && SitesApart(Twice().relocs)
  {
    var u := Twice();
    var ss := u.syms;
    assert ss[..2][..1] == ss[..1] && ss[..1][..0] == [];
    assert Flatten(ss[..1]) == Owned(0, []) == [];
    assert Flatten(ss[..2]) == Flatten(ss[..1]) + Owned(1, []) == [];
    assert Flatten(ss) == Flatten(ss[..2]) + Owned(2, ss[2].drel);
    assert Flatten(ss) == [FileDrel(2, DataReloc(0, 1, 0)), FileDrel(2, DataReloc(0, 0, 0))];
  }

  lemma LowByte(s: Site)
    ensures ByteOf(s, s.at) == s.value % 0x100
  {
    var q := s.value % M32 / 0x100;
    ModIs(s.value, 0x100, s.value / M32 * 0x100_0000 + q, s.value % M32 % 0x100);
  }

  lemma PairUnsettled(front: seq<Sym>, s: Sym, addrs: Addrs, x: Site, y: Site)
    requires Block(s, addrs) == [x, y] && x.at == y.at && x.value % 0x100 != y.value % 0x100
    ensures !Settled(front + [s], addrs, x.at) && Sites(front + [s], addrs) == Sites(front, addrs) + [x, y]
  {
    var b := [x, y];
    LowByte(x);
    LowByte(y);
    assert Covers(b[0], x.at) && b[..1] == [x] && (front + [s])[..|front|] == front;
  }

  lemma TwiceUnsettled(addrs: Addrs)
    requires addrs == [Some(0x1_1010), Some(0x1_1012), Some(0x1_1000)]
    ensures var u := Twice(); AllOk(Sites(u.syms, addrs), |u.data|) && !Settled(u.syms, addrs, 0)
  {
    var ss := Twice().syms;
    var x, y := Site(0, 0x1_1012, true), Site(0, 0x1_1010, true);
    assert Block(ss[2], addrs) == [x, y];
    PairUnsettled(ss[..2], ss[2], addrs, x, y);
    assert ss[..2][..1] == ss[..1] && ss[..1][..0] == [] && ss == ss[..2] + [ss[2]];
    assert Sites(ss[..1], addrs) == [] + [] && Sites(ss[..2], addrs) == [] + [];
  }
}
