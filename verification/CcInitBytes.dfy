/** What an initialised variable holds: at the place of every value that none behind it
    overwrites, the bytes of that value, the lowest first. */
module CcInitBytes {
  import opened Options
  import opened Bytes
  import opened RvArith
  import opened RvMachine
  import opened CcSource
  import opened CcFold
  import opened CcInit

  // ----- numbers as bytes -----

  lemma {:induction false} ShiftedFirst(v: int, i: nat)
    ensures Shifted(v, i + 1) == Shifted(v / 256, i)
  {
    if i > 0 { ShiftedFirst(v, i - 1); }
  }

  lemma {:induction false} LowBytesFirst(v: int, n: nat)
    requires n > 0
    ensures LowBytes(v, n)[0] == v % 0x100 && LowBytes(v, n)[1..] == LowBytes(v / 0x100, n - 1)
  {
    assert Shifted(v, 0) == v;
    forall i | 0 <= i < n - 1 ensures LowBytes(v, n)[1..][i] == LowBytes(v / 0x100, n - 1)[i] { ShiftedFirst(v, i); }
  }

  lemma RemainderJoin(v: int, p: nat)
    requires p > 0
    ensures v % 0x100 + 0x100 * (v / 0x100 % p) == v % (0x100 * p)
  {
    var q, r := v / 0x100 / p, v / 0x100 % p;
    assert v / 0x100 == q * p + r;
    assert v == q * (0x100 * p) + (v % 0x100 + 0x100 * r);
    ModIs(v, 0x100 * p, q, v % 0x100 + 0x100 * r);
  }

  /** The n bytes stored for a number are its remainder modulo 256^n, the lowest byte
      first. */
  lemma {:induction false} StoredValue(v: int, n: nat)
    ensures LittleEndian(LowBytes(v, n)) == v % Pow256(n)
    decreases n
  {
    if n > 0 {
      LowBytesFirst(v, n);
      StoredValue(v / 0x100, n - 1);
      RemainderJoin(v, Pow256(n - 1));
    } else {
      assert LowBytes(v, 0) == [];
    }
  }

  // ----- which initialisers are accepted -----

  /** the tree has the shape of the type: numbers for scalars, strings for arrays of
      char, lists for aggregates with indexes they have, one item at most for a union */
  predicate Shaped(t: Type, ini: Init)
    decreases ini
  {
    match ini
    case Value(_) => t.Scalar?
    case Text(_) => t.Array? && t.base == Scalar(1)
    case List(items) =>
      match t
      case Scalar(_) => false
      case Array(b, n) => forall i | 0 <= i < |items| :: items[i].index < n && Shaped(b, items[i].init)
      case Struct(ms, _) =>
        forall i | 0 <= i < |items| :: items[i].index < |ms| && Shaped(ms[items[i].index].ty, items[i].init)
      case Union(ms, _) =>
        && |items| <= 1
        && forall i | 0 <= i < |items| :: items[i].index < |ms| && Shaped(ms[items[i].index].ty, items[i].init)
  }

  /** item i has a place and the shape of what is there */
  predicate ItemShaped(t: Type, items: seq<Item>, i: nat)
    requires i < |items|
  {
    Part(t, items[i].index).Some? && Shaped(Part(t, items[i].index).value.1, items[i].init)
  }

  lemma {:induction false} LeavesShaped(t: Type, ini: Init, off: nat)
    ensures Leaves(t, ini, off).Some? <==> Shaped(t, ini)
    decreases ini, if ini.List? then |ini.items| + 1 else 0
  {
    if ini.List? && !t.Scalar? && !TooMany(t, ini.items) {
      ItemsShaped(t, ini, off, |ini.items|);
      ListShaped(t, ini.items);
    }
  }

  ghost predicate AllShaped(t: Type, items: seq<Item>, k: nat)
    requires k <= |items|
  {
    forall i: nat {:trigger ItemShaped(t, items, i)} | i < k :: ItemShaped(t, items, i)
  }

  lemma ListShaped(t: Type, items: seq<Item>)
    requires !t.Scalar? && (t.Union? ==> |items| <= 1)
    ensures Shaped(t, List(items)) <==> AllShaped(t, items, |items|)
  {
    if AllShaped(t, items, |items|) {
      forall i: nat | i < |items| ensures Part(t, items[i].index).Some? { assert ItemShaped(t, items, i); }
      forall i: nat | i < |items| ensures Shaped(Part(t, items[i].index).value.1, items[i].init) {
        assert ItemShaped(t, items, i);
      }
    }
  }

  lemma {:induction false} ItemsShaped(t: Type, ini: Init, off: nat, k: nat)
    requires ini.List? && k <= |ini.items|
    ensures LeafItems(t, ini, off, k).Some? <==> AllShaped(t, ini.items, k)
    decreases ini, k
  {
    if k > 0 {
      var item := ini.items[k - 1];
      ItemsShaped(t, ini, off, k - 1);
      if Part(t, item.index).Some? {
        var (at, p) := Part(t, item.index).value;
        LeavesShaped(p, item.init, off + at);
      }
      assert ItemShaped(t, ini.items, k - 1) <==>
        Part(t, item.index).Some? && Shaped(Part(t, item.index).value.1, item.init);
    }
  }

  /** A local's initialiser is accepted exactly when it has the shape of the type, a
      global's when also every value in it folds. */
  lemma AcceptedExactly(mem: seq<byte>, lv: Lvalue, t: Type, ini: Init, env: Env)
    requires Room(t, mem, Address(lv))
    ensures BuildLocal(lv, t, ini).Some? <==> Shaped(t, ini)
    ensures Materialize(mem, t, ini, Address(lv)).Some? <==>
      Shaped(t, ini) && Leaves(t, ini, Address(lv)).Some? && AllFold(Leaves(t, ini, Address(lv)).value)
  {
    LeavesShaped(t, ini, Address(lv));
    LocalLays(mem, lv, t, ini, env);
    GlobalLays(mem, t, ini, Address(lv));
  }

  /** a string fills an array of char as far as both go */
  lemma TextHolds(buf: seq<byte>, n: nat, str: seq<byte>, off: nat, k: nat)
    requires off + n <= |buf| && k < n
    ensures Room(Array(Scalar(1), n), buf, off)
    ensures
      var g := Materialize(buf, Array(Scalar(1), n), Text(str), off);
      g.Some? && g.value[off + k] == if k < |str| then str[k] else buf[off + k]
  {
    TextSize(Array(Scalar(1), n));
  }

  // ----- what the writes leave -----

  function LenOf(x: Leaf): nat { if x.Number? then x.bytes else |x.str| }

  /** no value behind the i-th one writes to its bytes */
  predicate Stands(xs: seq<Leaf>, i: nat) {
    i < |xs| && forall j | i < j < |xs| :: xs[j].at + LenOf(xs[j]) <= xs[i].at || xs[i].at + LenOf(xs[i]) <= xs[j].at
  }

  lemma {:induction false} LeafStands(mem: seq<byte>, xs: seq<Leaf>, i: nat, val: Values)
    requires Stands(xs, i) && xs[i].at + LenOf(xs[i]) <= |mem|
    ensures LayAll(mem, xs, val)[xs[i].at..xs[i].at + LenOf(xs[i])] == LeafBytes(xs[i], val)
    decreases |xs|
  {
    var n, x := |xs| - 1, xs[i];
    var was, y := LayAll(mem, xs[..n], val), xs[n];
    if i < n {
      FrontStands(xs, i);
      LeafStands(mem, xs[..n], i, val);
      PatchKeeps(was, y, val, x.at, LenOf(x));
    } else {
      PatchWrites(was, y, val);
    }
  }

  lemma FrontStands(xs: seq<Leaf>, i: nat)
    requires Stands(xs, i) && i < |xs| - 1
    ensures
      var (front, y) := (xs[..|xs| - 1], xs[|xs| - 1]);
      && front[i] == xs[i] && Stands(front, i)
      && (y.at + LenOf(y) <= xs[i].at || xs[i].at + LenOf(xs[i]) <= y.at)
  {
  }

  lemma PatchKeeps(mem: seq<byte>, y: Leaf, val: Values, at: nat, len: nat)
    requires at + len <= |mem| && (y.at + LenOf(y) <= at || at + len <= y.at)
    ensures LayOne(mem, y, val)[at..at + len] == mem[at..at + len]
  {
    var r := LayOne(mem, y, val);
    forall k | at <= k < at + len ensures r[k] == mem[k] {}
  }

  lemma PatchWrites(mem: seq<byte>, y: Leaf, val: Values)
    requires y.at + LenOf(y) <= |mem|
    ensures LayOne(mem, y, val)[y.at..y.at + LenOf(y)] == LeafBytes(y, val)
  {
    var r, b := LayOne(mem, y, val), LeafBytes(y, val);
    assert r == Patch(mem, y.at, b);
    forall k: nat | k < |b| ensures r[y.at + k] == b[k] {}
  }

  /** every leaf lies inside the variable */
  ghost predicate AllInside(xs: Option<seq<Leaf>>, lo: nat, hi: nat) {
    xs.Some? ==> forall i | 0 <= i < |xs.value| :: lo <= xs.value[i].at && xs.value[i].at + LenOf(xs.value[i]) <= hi
  }

  lemma {:induction false} LeavesInside(t: Type, ini: Init, off: nat)
    requires TypeOk(t)
    ensures AllInside(Leaves(t, ini, off), off, off + SizeOf(t))
    decreases ini, if ini.List? then |ini.items| + 1 else 0
  {
    match ini
    case Value(_) =>
    case Text(_) => if IsText(t) { TextSize(t); }
    case List(items) => if !t.Scalar? && !TooMany(t, items) { ItemsInside(t, ini, off, |items|); }
  }

  lemma {:induction false} ItemsInside(t: Type, ini: Init, off: nat, k: nat)
    requires TypeOk(t) && ini.List? && k <= |ini.items|
    ensures AllInside(LeafItems(t, ini, off, k), off, off + SizeOf(t))
    decreases ini, k
  {
    if k > 0 {
      var item := ini.items[k - 1];
      ItemsInside(t, ini, off, k - 1);
      if Part(t, item.index).Some? {
        PartInside(t, item.index);
        var (at, p) := Part(t, item.index).value;
        LeavesInside(p, item.init, off + at);
      }
    }
  }

  /** the leaf reads back from m: its characters, or its value cut to its size */
  ghost predicate ReadsAs(m: seq<byte>, x: Leaf, val: Values) {
    && x.at + LenOf(x) <= |m|
    && var b := m[x.at..x.at + LenOf(x)];
    match x
    case Chars(_, str) => b == str
    case Number(_, n, e) => LittleEndian(b) == val(e) % Pow256(n)
  }

  lemma LayReads(mem: seq<byte>, xs: seq<Leaf>, i: nat, val: Values)
    requires Stands(xs, i) && xs[i].at + LenOf(xs[i]) <= |mem|
    ensures ReadsAs(LayAll(mem, xs, val), xs[i], val)
  {
    LeafStands(mem, xs, i, val);
    if xs[i].Number? { StoredValue(val(xs[i].e), xs[i].bytes); }
  }

  /** A global's number reads back as its folded value, cut to its size, and its
      characters as they stand in the initialiser. */
  lemma GlobalHolds(buf: seq<byte>, t: Type, ini: Init, off: nat, i: nat)
    requires Room(t, buf, off) && Materialize(buf, t, ini, off).Some?
    requires Leaves(t, ini, off).Some? ==> Stands(Leaves(t, ini, off).value, i)
    ensures Leaves(t, ini, off).Some?
    ensures
      var x := Leaves(t, ini, off).value[i];
      ReadsAs(Materialize(buf, t, ini, off).value, x, Folded()) && (x.Number? ==> EvalConst(x.e).Some?)
  {
    GlobalLays(buf, t, ini, off);
    LeavesInside(t, ini, off);
    var xs := Leaves(t, ini, off).value;
    assert Folds(xs[i]);
    LayReads(buf, xs, i, Folded());
  }

  /** A local's number reads back as the value its expression has, cut to its size. */
  lemma LocalHolds(mem: seq<byte>, lv: Lvalue, t: Type, ini: Init, env: Env, i: nat)
    requires Room(t, mem, Address(lv)) && BuildLocal(lv, t, ini).Some?
    requires Leaves(t, ini, Address(lv)).Some? ==> Stands(Leaves(t, ini, Address(lv)).value, i)
    ensures Leaves(t, ini, Address(lv)).Some?
    ensures ReadsAs(RunAll(mem, BuildLocal(lv, t, ini).value, env), Leaves(t, ini, Address(lv)).value[i], Computed(env))
  {
    LocalLays(mem, lv, t, ini, env);
    LeavesInside(t, ini, Address(lv));
    LayReads(mem, Leaves(t, ini, Address(lv)).value, i, Computed(env));
  }

  predicate Misses(xs: seq<Leaf>, k: nat) {
    forall i | 0 <= i < |xs| :: !(xs[i].at <= k < xs[i].at + LenOf(xs[i]))
  }

  lemma {:induction false} LayMisses(mem: seq<byte>, xs: seq<Leaf>, k: nat, val: Values)
    requires Misses(xs, k) && k < |mem|
    ensures LayAll(mem, xs, val)[k] == mem[k]
    decreases |xs|
  {
    if xs != [] {
      var n := |xs| - 1;
      LayMisses(mem, xs[..n], k, val);
      assert !(xs[n].at <= k < xs[n].at + LenOf(xs[n]));
    }
  }

  /** A byte no value covers keeps what was there, in both back ends: zero, as both
      start from a cleared variable. */
  lemma RestStays(mem: seq<byte>, lv: Lvalue, t: Type, ini: Init, env: Env, k: nat)
    requires Room(t, mem, Address(lv)) && BuildLocal(lv, t, ini).Some? && k < |mem|
    requires Leaves(t, ini, Address(lv)).Some? ==> Misses(Leaves(t, ini, Address(lv)).value, k)
    ensures RunAll(mem, BuildLocal(lv, t, ini).value, env)[k] == mem[k]
    ensures Materialize(mem, t, ini, Address(lv)).Some? ==> Materialize(mem, t, ini, Address(lv)).value[k] == mem[k]
  {
    LocalLays(mem, lv, t, ini, env);
    GlobalLays(mem, t, ini, Address(lv));
    var xs := Leaves(t, ini, Address(lv)).value;
    LayMisses(mem, xs, k, Computed(env));
    LayMisses(mem, xs, k, Folded());
  }

  // ----- the machine's memory as bytes -----

  /** the byte at an address: the doubleword it lies in, the lowest byte first */
  function MemByte(mem: Mem, a: int): byte {
    var v := Rd(mem, a - a % 8);
    LowBytes(v, 8)[a % 8]
  }

  function BytesOf(w: Width): nat { match w case Word => 4 case Double => 8 }

  /** what a load makes of n bytes */
  function Signed(v: nat, n: nat): int { if 2 * v < Pow256(n) then v else v - Pow256(n) }

  lemma Powers()
    ensures Pow256(4) == M32 && Pow256(8) == M64
  {
    assert Pow256(1) == 0x100 && Pow256(2) == 0x1_0000 && Pow256(3) == 0x100_0000;
    assert Pow256(5) == 0x100 * M32 && Pow256(6) == 0x1_0000 * M32 && Pow256(7) == 0x100_0000 * M32;
  }

  /** the low bytes and the ones above them */
  lemma {:induction false} LowBytesSplit(v: int, m: nat, n: nat)
    ensures LowBytes(v, m + n) == LowBytes(v, m) + LowBytes(v / Pow256(m), n)
    decreases m
  {
    if m == 0 {
      assert LowBytes(v, 0) == [] && v / 1 == v;
    } else {
      LowBytesFirst(v, m + n);
      LowBytesFirst(v, m);
      LowBytesSplit(v / 0x100, m - 1, n);
      QuotientTwice(v, Pow256(m - 1));
      var all, low := LowBytes(v, m + n), LowBytes(v, m);
      assert all == [all[0]] + all[1..] && low == [low[0]] + low[1..];
    }
  }

  lemma QuotientTwice(v: int, p: nat)
    requires p > 0
    ensures v / 0x100 / p == v / (0x100 * p)
  {
    var q, r := v / 0x100 / p, v / 0x100 % p;
    assert v / 0x100 == q * p + r;
    assert v == q * (0x100 * p) + (v % 0x100 + 0x100 * r);
    ModIs(v, 0x100 * p, q, v % 0x100 + 0x100 * r);
  }

  /** n bytes know a number modulo 256^n */
  lemma {:induction false} LowBytesMod(v: int, w: int, n: nat)
    requires v % Pow256(n) == w % Pow256(n)
    ensures LowBytes(v, n) == LowBytes(w, n)
    decreases n
  {
    if n > 0 {
      var p := Pow256(n - 1);
      RemainderJoin(v, p);
      RemainderJoin(w, p);
      SameDigit(v % 0x100, w % 0x100, v / 0x100 % p, w / 0x100 % p);
      LowBytesFirst(v, n);
      LowBytesFirst(w, n);
      LowBytesMod(v / 0x100, w / 0x100, n - 1);
      var x, y := LowBytes(v, n), LowBytes(w, n);
      assert x == [x[0]] + x[1..] && y == [y[0]] + y[1..];
    }
  }

  lemma SameDigit(a: nat, b: nat, x: nat, y: nat)
    requires a < 0x100 && b < 0x100 && a + 0x100 * x == b + 0x100 * y
    ensures a == b && x == y
  {
  }

  lemma HalvesOf(v: int)
    ensures LowBytes(v, 8) == LowBytes(v, 4) + LowBytes(v / M32, 4)
  {
    Powers();
    LowBytesSplit(v, 4, 4);
  }

  lemma SetLowBytes(was: int, v: int)
    requires InS64(was)
    ensures LowBytes(SetLow(was, v), 8) == LowBytes(v, 4) + LowBytes(was, 8)[4..]
  {
    var q, x := was / M32, was - was % M32 + v % M32;
    assert x == q * M32 + v % M32 && InS64(x);
    ModIs(x, M32, q, v % M32);
    Powers();
    HalvesOf(x);
    HalvesOf(was);
    LowBytesMod(x, v, 4);
    assert (LowBytes(was, 4) + LowBytes(was / M32, 4))[4..] == LowBytes(was / M32, 4);
  }

  lemma SetHighBytes(was: int, v: int)
    ensures LowBytes(SetHigh(was, v), 8) == LowBytes(was, 4) + LowBytes(v, 4)
  {
    var y := v * M32 + was % M32;
    var k := (y + H64) / M64;
    var x := Wrap64(y);
    assert x == (v - k * M32) * M32 + was % M32;
    ModIs(x, M32, v - k * M32, was % M32);
    ModShift(v, -k);
    Powers();
    HalvesOf(x);
    LowBytesMod(x, was, 4);
    LowBytesMod(v - k * M32, v, 4);
  }

  /** A store changes the bytes at its address to those of the number and no other. */
  lemma StoreWrites(w: Width, mem: Mem, a: int, v: int, x: int)
    requires StoreValue(w, mem, a, v).Some? && InS64(v)
    ensures MemByte(StoreValue(w, mem, a, v).value, x) ==
      if a <= x < a + BytesOf(w) then LowBytes(v, BytesOf(w))[x - a] else MemByte(mem, x)
  {
    var d := a - a % 8;
    var was := Rd(mem, d);
    assert x - x % 8 == d <==> d <= x < d + 8;
    if w.Word? {
      SetLowBytes(was, v);
      SetHighBytes(was, v);
      HalvesOf(was);
      SameLow(was);
    }
  }

  lemma SameLow(was: int)
    ensures LowBytes(was, 8)[..4] == LowBytes(was, 4)
  {
    HalvesOf(was);
  }

  /** n bytes of memory */
  function MemBytes(mem: Mem, a: int, n: nat): (b: seq<byte>)
    ensures |b| == n && forall i | 0 <= i < n :: b[i] == MemByte(mem, a + i)
  {
    if n == 0 then [] else MemBytes(mem, a, n - 1) + [MemByte(mem, a + n - 1)]
  }

  lemma ByteInDouble(mem: Mem, a: int, i: nat)
    requires a % 8 + i < 8
    ensures MemByte(mem, a + i) == LowBytes(Rd(mem, a - a % 8), 8)[a % 8 + i]
  {
    ModIs(a + i, 8, a / 8, a % 8 + i);
  }

  /** the bytes inside one doubleword */
  lemma InOneDouble(mem: Mem, a: int, n: nat)
    requires a % 8 + n <= 8
    ensures MemBytes(mem, a, n) == LowBytes(Rd(mem, a - a % 8), 8)[a % 8..a % 8 + n]
  {
    var x, y := MemBytes(mem, a, n), LowBytes(Rd(mem, a - a % 8), 8)[a % 8..a % 8 + n];
    forall i | 0 <= i < n ensures x[i] == y[i] { ByteInDouble(mem, a, i); }
  }

  /** And a load gives the number the bytes at its address stand for, signed. */
  lemma LoadReads(w: Width, mem: Mem, a: int)
    requires LoadValue(w, mem, a).Some?
    ensures LoadValue(w, mem, a).value == Signed(LittleEndian(MemBytes(mem, a, BytesOf(w))), BytesOf(w))
  {
    InOneDouble(mem, a, BytesOf(w));
    match w
    case Double => DoubleReads(Rd(mem, a));
    case Word => WordReads(Rd(mem, a - a % 8), a % 8);
  }

  lemma DoubleReads(v: int)
    requires InS64(v)
    ensures LowBytes(v, 8)[0..8] == LowBytes(v, 8) && v == Signed(LittleEndian(LowBytes(v, 8)), 8)
  {
    Powers();
    StoredValue(v, 8);
    SignedIs(v, M64, H64);
  }

  lemma WordReads(v: int, k: nat)
    requires k == 0 || k == 4
    ensures Signed(LittleEndian(LowBytes(v, 8)[k..k + 4]), 4) == Wrap32(if k == 0 then v else v / M32)
  {
    var part := if k == 0 then v else v / M32;
    Powers();
    HalvesOf(v);
    assert LowBytes(v, 8)[k..k + 4] == LowBytes(part, 4);
    StoredValue(part, 4);
  }

  lemma SignedIs(v: int, m: nat, h: nat)
    requires m == 2 * h > 0 && 0 - h <= v < h
    ensures v == if 2 * (v % m) < m then v % m else v % m - m
  {
    if v < 0 { ModIs(v, m, -1, v + m); } else { ModIs(v, m, 0, v); }
  }
}
