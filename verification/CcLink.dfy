/** Code relocations: what patch_unit_relocs writes into the code, what the patched
    code does, and when the order of patching does not matter. */
module CcLink {
  import opened Options
  import opened RvArith
  import opened RvMachine
  import opened RvEncode
  import opened Bytes
  import opened CcUnit
  import opened CcMacros

  /** the upper and lower part of a 64-bit address, the carry of the lower part
      added to the upper one */
  function Upper(t: nat): nat { (t + 0x800) % M64 / 0x1000 }

  function Lower(t: nat): int {
    var lo := t % 0x1000;
    if lo >= 0x800 then lo - 0x1000 else lo
  }

  /** the patched word; None is the fatal error for a call out of range or to an
      odd address, or for a kind that does not exist */
  function PatchWord(kind: nat, was: nat, target: nat, pc: nat): Option<nat> {
    if kind == R_HI20 then Some(EncU(0x37, RdOf(was), Upper(target)))
    else if kind == R_LO12I then Some(EncI(0x13, RdOf(was), 0, Rs1Of(was), Lower(target)))
    else if kind == R_JAL then
      var off := Wrap64(target) - Wrap64(pc);
      if off % 2 != 0 || off < -0x10_0000 || off >= 0x10_0000 then None else Some(EncJ(0x6f, RdOf(was), off))
    else None
  }

  // ----- i_la -----

  /** the two words i_la emits */
  function LaWords(rd: nat): (nat, nat) { (EncU(0x37, rd, 0), EncI(0x13, rd, 0, rd, 0)) }

  lemma LaFields(rd: nat)
    requires rd < 32
    ensures RdOf(LaWords(rd).0) == rd && RdOf(LaWords(rd).1) == rd && Rs1Of(LaWords(rd).1) == rd
    ensures LaWords(rd).0 < M32 && LaWords(rd).1 < M32
  {
    URead(0x37, rd, 0);
    IRead(0x13, rd, 0, rd, 0);
    USum(0x37, rd, 0);
    ISum(0x13, rd, 0, rd, 0);
  }

  /** a 20-bit field keeps what matters to lui */
  lemma EncUSext(rd: nat, hi: int)
    requires rd < 32
    ensures EncU(0x37, rd, hi) == Encode(Lui(rd, Sext20(hi))) && Legal(Lui(rd, Sext20(hi))) && EncU(0x37, rd, hi) < M32
  {
    var q := (hi + 0x8_0000) / 0x10_0000;
    assert Sext20(hi) == hi - q * 0x10_0000;
    SameLow(hi, q);
    USum(0x37, rd, hi);
  }

  lemma SameLow(hi: int, q: int)
    ensures (hi - q * 0x10_0000) % 0x10_0000 == hi % 0x10_0000
  {
    ModIs(hi - q * 0x10_0000, 0x10_0000, hi / 0x10_0000 - q, hi % 0x10_0000);
  }

  /** Patched for a target, the pair decodes to a lui and an addi. */
  lemma LaDecodes(rd: nat, t: nat, pc: nat)
    requires rd < 32
    ensures
      var (w1, w2) := LaWords(rd);
      var (p1, p2) := (PatchWord(R_HI20, w1, t, pc), PatchWord(R_LO12I, w2, t, pc));
      && p1.Some? && p1.value < M32 && Decode(p1.value) == Some(Lui(rd, Sext20(Upper(t))))
      && p2.Some? && p2.value < M32 && Decode(p2.value) == Some(OpImm(ADDI, rd, rd, Lower(t)))
  {
    LaFields(rd);
    EncUSext(rd, Upper(t));
    ISum(0x13, rd, 0, rd, Lower(t));
    RoundTrip(Lui(rd, Sext20(Upper(t))));
    RoundTrip(OpImm(ADDI, rd, rd, Lower(t)));
  }

  function LaValue(t: nat): int { Wrap64(Wrap32(Sext20(Upper(t)) * 0x1000) + Lower(t)) }

  /** the decoded pair leaves LaValue in rd */
  lemma LaRuns(code: Code, m: Machine, rd: nat, t: nat)
    requires Ok(m) && 0 < rd < 32 && At(code, m.pc, [Lui(rd, Sext20(Upper(t))), OpImm(ADDI, rd, rd, Lower(t))])
    ensures Goes(code, m, With(m, 2, rd, LaValue(t)))
  {
    var i1, i2 := Lui(rd, Sext20(Upper(t))), OpImm(ADDI, rd, rd, Lower(t));
    var w := Wrap32(Sext20(Upper(t)) * 0x1000);
    assert [i1, i2] == [i1] + [i2];
    AtSplit(code, m.pc, [i1], [i2]);
    LuiAt(code, m, rd, Sext20(Upper(t)));
    WithOk(m, 1, rd, w);
    AddiAt(code, With(m, 1, rd, w), rd, rd, Lower(t));
    WithTwice(m, 1, 1, rd, w, LaValue(t));
    GoesTrans(code, m, With(m, 1, rd, w), With(m, 2, rd, LaValue(t)));
  }

  lemma LuiPlain(hi: int)
    ensures Wrap32(Sext20(hi) * 0x1000) == Wrap32(hi * 0x1000)
  {
    var q := (hi + 0x8_0000) / 0x10_0000;
    assert Sext20(hi) * 0x1000 == hi * 0x1000 - q * M32;
    ModShift(hi * 0x1000 + H32, -q);
  }

  /** The pair computes its 64-bit target exactly when the target, as a signed
      number, is within reach of a sign-extended lui and addi. */
  lemma LaExact(t: nat)
    requires t < M64
    ensures LaValue(t) == Wrap64(t) <==> t < 0x7fff_f800 || t >= M64 - 0x8000_0800
  {
    var x := Wrap64(t) - Lower(t);
    LuiPlain(Upper(t));
    UpperIs(t);
    var q := (x - Upper(t) * 0x1000) / M64;
    assert Upper(t) * 0x1000 == x - q * M64;
    assert x - q * M64 + H32 == (x + H32) + (-q * M32) * M32;
    ModShift(x + H32, -q * M32);
    LaSum(Wrap64(t), x, Lower(t));
  }

  /** the upper part is the rest of the address, modulo 2^64 */
  lemma UpperIs(t: nat)
    requires t < M64
    ensures -0x800 <= Lower(t) < 0x800
    ensures (Wrap64(t) - Lower(t)) % 0x1000 == 0 && (Wrap64(t) - Lower(t) - Upper(t) * 0x1000) % M64 == 0
  {
    var lo, s := Lower(t), Wrap64(t);
    var p := if t < H64 then 0 else 1;
    assert s == t - p * M64;
    var d, q := UpperParts(t);
    var c := M64 / 0x1000;
    ModIs(s - lo, 0x1000, d - p * c, 0);
    ModIs(s - lo - Upper(t) * 0x1000, M64, q - p, 0);
  }

  lemma UpperParts(t: nat) returns (d: int, q: int)
    requires t < M64
    ensures t - Lower(t) == d * 0x1000 && Upper(t) * 0x1000 == d * 0x1000 - q * M64 && -0x800 <= Lower(t) < 0x800
  {
    var lo := Lower(t);
    d := (t - lo) / 0x1000;
    assert t - lo == d * 0x1000;
    q := if t + 0x800 < M64 then 0 else 1;
    assert (t + 0x800) % M64 == t + 0x800 - q * M64;
    var c := M64 / 0x1000;
    ModIs((t + 0x800) % M64, 0x1000, d - q * c, lo + 0x800);
  }

  lemma LaSum(s: int, x: int, lo: int)
    requires x == s - lo && x % 0x1000 == 0 && -0x800 <= lo < 0x800
    ensures Wrap32(x) + lo == s <==> -0x8000_0800 <= s < 0x7fff_f800
  {
    var d := x / 0x1000;
    assert x == d * 0x1000;
  }

  // ----- calls -----

  /** A patched call decodes to a jal that lands on its target; it is refused
      exactly when the distance is odd or out of reach. */
  lemma CallLands(rd: nat, target: nat, pc: nat)
    requires rd < 32
    ensures
      var w := PatchWord(R_JAL, EncJ(0x6f, rd, 0), target, pc);
      var off := Wrap64(target) - Wrap64(pc);
      && (w.None? <==> off % 2 != 0 || !(-0x10_0000 <= off < 0x10_0000))
      && (w.Some? ==> w.value < M32 && Decode(w.value) == Some(Jal(rd, off)) && Wrap64(pc) + off == Wrap64(target))
  {
    JRead(0x6f, rd, 0);
    var off := Wrap64(target) - Wrap64(pc);
    if off % 2 == 0 && -0x10_0000 <= off < 0x10_0000 {
      JSum(0x6f, rd, off);
      RoundTrip(Jal(rd, off));
    }
  }

  // ----- patching a unit's code -----

  /** how a relocation changes the word at its site; None is a fatal error */
  type Fixer = (Reloc, nat) -> Option<nat>

  /** the addresses of a unit's symbols; None for a symbol no unit defines */
  type Addrs = seq<Option<nat>>

  predicate Known(addrs: Addrs, sym: nat) { sym < |addrs| && addrs[sym].Some? }

  /** sym + addend in 64-bit arithmetic */
  function Target(addrs: Addrs, sym: nat, addend: nat): nat
    requires Known(addrs, sym)
  {
    (addrs[sym].value + addend) % M64
  }

  /** the fixer for symbol addresses and a text base */
  function FixerFor(addrs: Addrs, base: nat): Fixer {
    (r: Reloc, was: nat) =>
      if Known(addrs, r.sym) then PatchWord(r.kind, was, Target(addrs, r.sym, r.addend), (base + r.pos) % M64)
      else None
  }

  /** sites lie inside the code */
  predicate RelocsOk(rs: seq<Reloc>, n: nat) { forall i | 0 <= i < |rs| :: rs[i].pos + 4 <= n }

  /** the relocation list of a unit, from its head */
  function PatchAll(code: bytes, rs: seq<Reloc>, f: Fixer): (r: Option<bytes>)
    requires RelocsOk(rs, |code|)
    ensures r.Some? ==> |r.value| == |code|
    decreases |rs|
  {
    if rs == [] then Some(code)
    else
      match f(rs[0], WordAt(code, rs[0].pos))
      case None => None
      case Some(w) => PatchAll(PutIns(code, rs[0].pos, w), rs[1..], f)
  }

  /** the loop of patch_unit_relocs over the code */
  method PatchCode(code: array<byte>, rs: seq<Reloc>, f: Fixer) returns (ok: bool)
    requires RelocsOk(rs, code.Length)
    modifies code
    ensures ok <==> PatchAll(old(code[..]), rs, f).Some?
    ensures ok ==> PatchAll(old(code[..]), rs, f) == Some(code[..])
  {
    var i := 0;
    ghost var all := PatchAll(code[..], rs, f);
    assert rs[0..] == rs;
    while i < |rs|
      invariant 0 <= i <= |rs| && RelocsOk(rs[i..], code.Length)
      invariant all == PatchAll(code[..], rs[i..], f)
    {
      var r := rs[i];
      assert rs[i..][0] == r && rs[i..][1..] == rs[i + 1..];
      var w := f(r, WordAt(code[..], r.pos));
      if w.None? { return false; }
      PutInsInPlace(code, r.pos, w.value);
      i := i + 1;
    }
    ok := true;
  }

  /** no two sites share a byte */
  predicate SitesApart(rs: seq<Reloc>) {
    forall i, j | 0 <= i < j < |rs| :: rs[i].pos + 4 <= rs[j].pos || rs[j].pos + 4 <= rs[i].pos
  }

  /** what the word at the site of relocation i has become */
  ghost predicate FixedBy(code: bytes, out: bytes, rs: seq<Reloc>, i: nat, f: Fixer)
    requires i < |rs| && rs[i].pos + 4 <= |code| == |out|
  {
    var w := f(rs[i], WordAt(code, rs[i].pos));
    w.Some? && WordAt(out, rs[i].pos) == w.value % M32
  }

  ghost predicate Refused(code: bytes, rs: seq<Reloc>, i: nat, f: Fixer)
    requires i < |rs| && rs[i].pos + 4 <= |code|
  {
    f(rs[i], WordAt(code, rs[i].pos)) == None
  }

  predicate IsSite(rs: seq<Reloc>, k: nat) { exists i | 0 <= i < |rs| :: rs[i].pos <= k < rs[i].pos + 4 }

  ghost predicate Untouched(code: bytes, out: bytes, rs: seq<Reloc>, k: nat)
    requires k < |code| == |out|
  {
    !IsSite(rs, k) ==> out[k] == code[k]
  }

  /** every relocation acted on the original word at its site, and nothing else
      changed; or one of them was refused */
  ghost predicate Pointwise(code: bytes, rs: seq<Reloc>, f: Fixer, r: Option<bytes>)
    requires RelocsOk(rs, |code|)
  {
    match r
    case Some(out) =>
      && |out| == |code|
      && (forall i: nat {:trigger FixedBy(code, out, rs, i, f)} | i < |rs| :: FixedBy(code, out, rs, i, f))
      && (forall k: nat {:trigger Untouched(code, out, rs, k)} | k < |code| :: Untouched(code, out, rs, k))
    case None => exists i: nat {:trigger Refused(code, rs, i, f)} | i < |rs| :: Refused(code, rs, i, f)
  }

  /** With sites apart the result does not depend on the order of patching. */
  lemma {:induction false} PatchPointwise(code: bytes, rs: seq<Reloc>, f: Fixer)
    requires RelocsOk(rs, |code|) && SitesApart(rs)
    ensures Pointwise(code, rs, f, PatchAll(code, rs, f))
    decreases |rs|
  {
    if rs == [] {
      forall k: nat {:trigger Untouched(code, code, rs, k)} | k < |code| ensures Untouched(code, code, rs, k) {}
    } else {
      var w := f(rs[0], WordAt(code, rs[0].pos));
      if w.None? {
        assert Refused(code, rs, 0, f);
      } else {
        var next := PutIns(code, rs[0].pos, w.value);
        PatchPointwise(next, rs[1..], f);
        PatchFirst(code, next, w.value, rs, f, PatchAll(code, rs, f));
      }
    }
  }

  /** the other sites' words are those of the original code */
  lemma FirstKeeps(code: bytes, next: bytes, w: nat, rs: seq<Reloc>, i: nat)
    requires 0 < i < |rs| && RelocsOk(rs, |code|) && SitesApart(rs) && next == PutIns(code, rs[0].pos, w)
    ensures WordAt(next, rs[i].pos) == WordAt(code, rs[i].pos)
  {
    PutInsReads(code, rs[0].pos, w);
    SameWord(code, next, rs[i].pos);
  }

  lemma PatchFirst(code: bytes, next: bytes, w: nat, rs: seq<Reloc>, f: Fixer, r: Option<bytes>)
    requires rs != [] && RelocsOk(rs, |code|) && SitesApart(rs)
    requires f(rs[0], WordAt(code, rs[0].pos)) == Some(w) && next == PutIns(code, rs[0].pos, w)
    requires Pointwise(next, rs[1..], f, r)
    ensures Pointwise(code, rs, f, r)
  {
    var rest := rs[1..];
    match r
    case Some(out) =>
      forall i: nat {:trigger FixedBy(code, out, rs, i, f)} | i < |rs| ensures FixedBy(code, out, rs, i, f) {
        if i > 0 {
          assert FixedBy(next, out, rest, i - 1, f);
          FirstKeeps(code, next, w, rs, i);
        } else {
          FirstStays(code, next, out, w, rs, f);
        }
      }
      forall k: nat {:trigger Untouched(code, out, rs, k)} | k < |code| ensures Untouched(code, out, rs, k) {
        assert Untouched(next, out, rest, k);
        if !IsSite(rs, k) { NoSite(code, next, w, rs, k); }
      }
    case None =>
      var i: nat :| i < |rest| && Refused(next, rest, i, f);
      FirstKeeps(code, next, w, rs, i + 1);
      assert Refused(code, rs, i + 1, f);
  }

  lemma NoSite(code: bytes, next: bytes, w: nat, rs: seq<Reloc>, k: nat)
    requires rs != [] && RelocsOk(rs, |code|) && next == PutIns(code, rs[0].pos, w) && k < |code| && !IsSite(rs, k)
    ensures !IsSite(rs[1..], k) && next[k] == code[k]
  {
    assert !(rs[0].pos <= k < rs[0].pos + 4);
    PutInsReads(code, rs[0].pos, w);
    forall i | 0 <= i < |rs[1..]|
      ensures !(rs[1..][i].pos <= k < rs[1..][i].pos + 4)
    {
      assert rs[1..][i] == rs[i + 1];
    }
  }

  /** later relocations leave the first one's word alone */
  lemma FirstStays(code: bytes, next: bytes, out: bytes, w: nat, rs: seq<Reloc>, f: Fixer)
    requires rs != [] && RelocsOk(rs, |code|) && SitesApart(rs) && next == PutIns(code, rs[0].pos, w)
    requires Pointwise(next, rs[1..], f, Some(out))
    ensures WordAt(out, rs[0].pos) == w % M32
  {
    var rest, p := rs[1..], rs[0].pos;
    PutInsReads(code, p, w);
    forall k | p <= k < p + 4 ensures out[k] == next[k] {
      forall i | 0 <= i < |rest| ensures !(rest[i].pos <= k < rest[i].pos + 4) { assert rest[i] == rs[i + 1]; }
      assert Untouched(next, out, rest, k);
    }
    SameWord(next, out, p);
  }

  /** Reading an object file reverses the relocation list; the patched code is the
      same, because sites do not overlap. */
  lemma PatchReversed(code: bytes, rs: seq<Reloc>, f: Fixer)
    requires RelocsOk(rs, |code|) && SitesApart(rs)
    ensures RelocsOk(Reversed(rs), |code|) && PatchAll(code, Reversed(rs), f) == PatchAll(code, rs, f)
  {
    PatchPointwise(code, rs, f);
    PatchPointwise(code, Reversed(rs), f);
    PointwiseAgree(code, rs, Reversed(rs), f, PatchAll(code, rs, f), PatchAll(code, Reversed(rs), f));
  }

  lemma PointwiseAgree(code: bytes, rs: seq<Reloc>, vs: seq<Reloc>, f: Fixer, x: Option<bytes>, y: Option<bytes>)
    requires vs == Reversed(rs) && RelocsOk(rs, |code|) && RelocsOk(vs, |code|)
    requires Pointwise(code, rs, f, x) && Pointwise(code, vs, f, y)
    ensures x == y
  {
    var n := |rs|;
    if x.None? {
      var i: nat :| i < n && Refused(code, rs, i, f);
      if y.Some? { RefusedEither(code, rs, vs, f, i, y.value); }
    }
    if y.None? {
      var i: nat :| i < n && Refused(code, vs, i, f);
      if x.Some? { RefusedEither(code, vs, rs, f, i, x.value); }
    }
    if x.Some? && y.Some? {
      forall k: nat | k < |code| ensures x.value[k] == y.value[k] { ByteAgree(code, rs, vs, f, x.value, y.value, k); }
      assert x.value == y.value;
    }
  }

  /** a relocation refused in one order is refused in the other */
  lemma RefusedEither(code: bytes, rs: seq<Reloc>, vs: seq<Reloc>, f: Fixer, i: nat, out: bytes)
    requires |rs| == |vs| && i < |rs| && rs[i] == vs[|rs| - 1 - i]
    requires rs[i].pos + 4 <= |code| == |out| && Refused(code, rs, i, f)
    ensures !FixedBy(code, out, vs, |rs| - 1 - i, f)
  {
  }

  lemma ByteAgree(code: bytes, rs: seq<Reloc>, vs: seq<Reloc>, f: Fixer, x: bytes, y: bytes, k: nat)
    requires vs == Reversed(rs) && RelocsOk(rs, |code|) && RelocsOk(vs, |code|) && k < |code|
    requires Pointwise(code, rs, f, Some(x)) && Pointwise(code, vs, f, Some(y))
    ensures x[k] == y[k]
  {
    if IsSite(rs, k) {
      var i :| 0 <= i < |rs| && rs[i].pos <= k < rs[i].pos + 4;
      assert FixedBy(code, x, rs, i, f) && FixedBy(code, y, vs, |rs| - 1 - i, f);
      WordBytes(x, y, rs[i].pos);
    } else {
      forall i | 0 <= i < |vs| ensures !(vs[i].pos <= k < vs[i].pos + 4) { assert vs[i] == rs[|rs| - 1 - i]; }
      assert Untouched(code, x, rs, k) && Untouched(code, y, vs, k);
    }
  }
}
