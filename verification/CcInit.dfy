/** Initialisers: the bytes materialize_global_init lays down, and the assignments
    build_local_init generates for a local of the same type. */
module CcInit {
  import opened Options
  import opened Bytes
  import opened RvArith
  import opened CcSource
  import opened CcFold

  /** struct and union members lie at their offsets; a union's are all at 0 */
  datatype Type =
    | Scalar(bytes: nat)
    | Array(base: Type, len: nat)
    | Struct(members: seq<Member>, bytes: nat)
    | Union(members: seq<Member>, bytes: nat)
  datatype Member = Member(offset: nat, ty: Type)

  /** an initialiser tree as the parser builds it: braces, designators and elided
      braces have become lists of items with the index each one initialises */
  datatype Init = Value(e: Expr) | Text(str: seq<byte>) | List(items: seq<Item>)
  datatype Item = Item(index: nat, init: Init)

  function SizeOf(t: Type): nat {
    match t case Scalar(n) => n case Array(b, n) => n * SizeOf(b) case Struct(_, n) => n case Union(_, n) => n
  }

  /** scalars are 1 to 8 bytes, members lie inside their aggregate */
  predicate TypeOk(t: Type) {
    match t
    case Scalar(n) => n == 1 || n == 2 || n == 4 || n == 8
    case Array(b, _) => TypeOk(b)
    case Struct(ms, n) => forall i | 0 <= i < |ms| :: TypeOk(ms[i].ty) && ms[i].offset + SizeOf(ms[i].ty) <= n
    case Union(ms, n) => forall i | 0 <= i < |ms| :: TypeOk(ms[i].ty) && ms[i].offset + SizeOf(ms[i].ty) <= n
  }

  /** the part of an aggregate an index selects: offset and type */
  function Part(t: Type, index: nat): Option<(nat, Type)> {
    match t
    case Scalar(_) => None
    case Array(b, n) => if index < n then Some((index * SizeOf(b), b)) else None
    case Struct(ms, _) => if index < |ms| then Some((ms[index].offset, ms[index].ty)) else None
    case Union(ms, _) => if index < |ms| then Some((ms[index].offset, ms[index].ty)) else None
  }

  lemma PartInside(t: Type, index: nat)
    requires TypeOk(t) && Part(t, index).Some?
    ensures var (off, p) := Part(t, index).value; TypeOk(p) && off + SizeOf(p) <= SizeOf(t)
  {
    if t.Array? { ElementInside(index, t.len, SizeOf(t.base)); }
  }

  lemma ElementInside(i: nat, n: nat, size: nat)
    requires i < n
    ensures i * size + size <= n * size
  {
    assert n * size == i * size + (n - i) * size;
    AtLeastOnce(n - i, size);
  }

  /** an array of char takes a string */
  predicate IsText(t: Type) { t.Array? && t.base == Scalar(1) }

  lemma TextSize(t: Type)
    requires IsText(t)
    ensures SizeOf(t) == t.len
  {
    assert SizeOf(t.base) == 1;
  }

  predicate TooMany(t: Type, items: seq<Item>) { t.Union? && |items| > 1 }

  // ----- storing a number -----

  /** v >> (8 * i), sign included */
  function Shifted(v: int, i: nat): int { if i == 0 then v else Shifted(v, i - 1) / 256 }

  /** store_int, and what a store instruction of n bytes writes */
  function LowBytes(v: int, n: nat): (b: seq<byte>)
    ensures |b| == n
  {
    seq(n, i requires 0 <= i < n => (Shifted(v, i) % 256) as byte)
  }

  function Patch(buf: seq<byte>, at: nat, b: seq<byte>): (r: seq<byte>)
    requires at + |b| <= |buf|
    ensures |r| == |buf|
  {
    buf[..at] + b + buf[at + |b|..]
  }

  // ----- global back end -----

  predicate Room(t: Type, buf: seq<byte>, off: nat) { TypeOk(t) && off + SizeOf(t) <= |buf| }

  function Min(a: nat, b: nat): nat { if a < b then a else b }

  /** materialize_global_init; None is one of its fatal errors */
  function Materialize(buf: seq<byte>, t: Type, ini: Init, off: nat): (r: Option<seq<byte>>)
    requires Room(t, buf, off)
    ensures r.Some? ==> |r.value| == |buf|
    decreases ini, if ini.List? then |ini.items| + 1 else 0
  {
    match ini
    case Value(e) =>
      if !t.Scalar? then None
      else (match EvalConst(e) case None => None case Some(v) => Some(Patch(buf, off, LowBytes(v, t.bytes))))
    case Text(str) => if !IsText(t) then None else TextSize(t); Some(Patch(buf, off, str[..Min(|str|, t.len)]))
    case List(items) => if t.Scalar? || TooMany(t, items) then None else MaterializeItems(buf, t, ini, off, |items|)
  }

  /** the first k items of a list */
  function MaterializeItems(buf: seq<byte>, t: Type, ini: Init, off: nat, k: nat): (r: Option<seq<byte>>)
    requires Room(t, buf, off) && ini.List? && k <= |ini.items|
    ensures r.Some? ==> |r.value| == |buf|
    decreases ini, k
  {
    if k == 0 then Some(buf)
    else
      match MaterializeItems(buf, t, ini, off, k - 1)
      case None => None
      case Some(b) =>
        var item := ini.items[k - 1];
        match Part(t, item.index)
        case None => None
        case Some(p) => PartInside(t, item.index); Materialize(b, p.1, item.init, off + p.0)
  }

  /** the same, in the symbol's buffer */
  method MaterializeInPlace(a: array<byte>, t: Type, ini: Init, off: nat) returns (ok: bool)
    requires Room(t, a[..], off)
    modifies a
    ensures (if ok then Some(a[..]) else None) == Materialize(old(a[..]), t, ini, off)
    decreases ini, if ini.List? then |ini.items| + 1 else 0
  {
    match ini
    case Value(e) =>
      var v := EvalConst(e);
      if !t.Scalar? || v.None? { return false; }
      Store(a, off, LowBytes(v.value, t.bytes));
      ok := true;
    case Text(str) =>
      if !IsText(t) { return false; }
      TextSize(t);
      Store(a, off, str[..Min(|str|, t.len)]);
      ok := true;
    case List(items) =>
      if t.Scalar? || TooMany(t, items) { return false; }
      var k := 0;
      while k < |items|
        invariant 0 <= k <= |items| && Some(a[..]) == MaterializeItems(old(a[..]), t, ini, off, k)
      {
        var p := Part(t, items[k].index);
        ItemsStop(old(a[..]), t, ini, off, k, |items|);
        if p.None? { return false; }
        PartInside(t, items[k].index);
        ok := MaterializeInPlace(a, p.value.1, items[k].init, off + p.value.0);
        if !ok { return false; }
        k := k + 1;
      }
      ok := true;
  }

  /** an error in item k is an error of the list */
  lemma {:induction false} ItemsStop(buf: seq<byte>, t: Type, ini: Init, off: nat, k: nat, n: nat)
    requires Room(t, buf, off) && ini.List? && k < n <= |ini.items|
    ensures MaterializeItems(buf, t, ini, off, k + 1).None? ==> MaterializeItems(buf, t, ini, off, n).None?
    decreases n
  {
    if k + 1 < n { ItemsStop(buf, t, ini, off, k, n - 1); }
  }

  /** memcpy */
  method Store(a: array<byte>, at: nat, b: seq<byte>)
    requires at + |b| <= a.Length
    modifies a
    ensures a[..] == Patch(old(a[..]), at, b)
  {
    for i := 0 to |b|
      invariant forall j | 0 <= j < a.Length :: a[j] == if at <= j < at + i then b[j - at] else old(a[j])
    {
      a[at + i] := b[i];
    }
  }

  // ----- local back end -----

  /** the lvalues build_local_init makes */
  datatype Lvalue = Root | Element(of: Lvalue, index: nat, bytes: nat) | Field(of: Lvalue, offset: nat)

  /** what gen_addr computes, relative to the variable */
  function Address(lv: Lvalue): nat {
    match lv case Root => 0 case Element(b, i, n) => Address(b) + i * n case Field(b, o) => Address(b) + o
  }

  /** an assignment statement: n bytes of the value of an expression, or a char */
  datatype Assign = AssignExpr(lv: Lvalue, bytes: nat, e: Expr) | AssignChar(lv: Lvalue, c: byte)

  function SubLvalue(lv: Lvalue, t: Type, index: nat): Lvalue
    requires Part(t, index).Some?
  {
    if t.Array? then Element(lv, index, SizeOf(t.base)) else Field(lv, t.members[index].offset)
  }

  function CharAssigns(lv: Lvalue, str: seq<byte>, n: nat): seq<Assign>
    requires n <= |str|
  {
    seq(n, i requires 0 <= i < n => AssignChar(Element(lv, i, 1), str[i]))
  }

  /** build_local_init; an aggregate copy cannot come from a constant */
  function BuildLocal(lv: Lvalue, t: Type, ini: Init): Option<seq<Assign>>
    decreases ini, if ini.List? then |ini.items| + 1 else 0
  {
    match ini
    case Value(e) => if !t.Scalar? then None else Some([AssignExpr(lv, t.bytes, e)])
    case Text(str) => if !IsText(t) then None else Some(CharAssigns(lv, str, Min(|str|, t.len)))
    case List(items) => if t.Scalar? || TooMany(t, items) then None else BuildItems(lv, t, ini, |items|)
  }

  function BuildItems(lv: Lvalue, t: Type, ini: Init, k: nat): Option<seq<Assign>>
    requires ini.List? && k <= |ini.items|
    decreases ini, k
  {
    if k == 0 then Some([])
    else
      match BuildItems(lv, t, ini, k - 1)
      case None => None
      case Some(front) =>
        var item := ini.items[k - 1];
        match Part(t, item.index)
        case None => None
        case Some(p) =>
          match BuildLocal(SubLvalue(lv, t, item.index), p.1, item.init)
          case None => None
          case Some(more) => Some(front + more)
  }

  /** running an assignment on the variable's bytes */
  function RunOne(mem: seq<byte>, a: Assign, env: Env): (r: seq<byte>)
    ensures |r| == |mem|
  {
    match a
    case AssignExpr(lv, n, e) =>
      if Address(lv) + n <= |mem| then Patch(mem, Address(lv), LowBytes(Eval(e, env).0, n)) else mem
    case AssignChar(lv, c) => if Address(lv) + 1 <= |mem| then Patch(mem, Address(lv), [c]) else mem
  }

  function RunAll(mem: seq<byte>, s: seq<Assign>, env: Env): (r: seq<byte>)
    ensures |r| == |mem|
    decreases |s|
  {
    if s == [] then mem else RunOne(RunAll(mem, s[..|s| - 1], env), s[|s| - 1], env)
  }

  // ----- the writes both back ends make -----

  /** a number stored in so many bytes, or the characters of a string */
  datatype Leaf = Number(at: nat, bytes: nat, e: Expr) | Chars(at: nat, str: seq<byte>)

  /** the values of an initialiser in order, each with its place; None where both
      back ends report an error of shape */
  function Leaves(t: Type, ini: Init, off: nat): Option<seq<Leaf>>
    decreases ini, if ini.List? then |ini.items| + 1 else 0
  {
    match ini
    case Value(e) => if !t.Scalar? then None else Some([Number(off, t.bytes, e)])
    case Text(str) => if !IsText(t) then None else Some([Chars(off, str[..Min(|str|, t.len)])])
    case List(items) => if t.Scalar? || TooMany(t, items) then None else LeafItems(t, ini, off, |items|)
  }

  function LeafItems(t: Type, ini: Init, off: nat, k: nat): Option<seq<Leaf>>
    requires ini.List? && k <= |ini.items|
    decreases ini, k
  {
    if k == 0 then Some([])
    else
      match LeafItems(t, ini, off, k - 1)
      case None => None
      case Some(front) =>
        var item := ini.items[k - 1];
        match Part(t, item.index)
        case None => None
        case Some(p) =>
          match Leaves(p.1, item.init, off + p.0)
          case None => None
          case Some(more) => Some(front + more)
  }

  /** a value for every expression */
  type Values = Expr -> int

  /** what folding makes of it, and what running makes of it */
  function Folded(): Values { (e: Expr) => match EvalConst(e) case Some(v) => v case None => 0 }

  function Computed(env: Env): Values { (e: Expr) => Eval(e, env).0 }

  function LeafBytes(x: Leaf, val: Values): seq<byte> {
    match x case Number(_, n, e) => LowBytes(val(e), n) case Chars(_, str) => str
  }

  function LayOne(mem: seq<byte>, x: Leaf, val: Values): (r: seq<byte>)
    ensures |r| == |mem|
  {
    if x.at + |LeafBytes(x, val)| <= |mem| then Patch(mem, x.at, LeafBytes(x, val)) else mem
  }

  function LayAll(mem: seq<byte>, xs: seq<Leaf>, val: Values): (r: seq<byte>)
    ensures |r| == |mem|
    decreases |xs|
  {
    if xs == [] then mem else LayOne(LayAll(mem, xs[..|xs| - 1], val), xs[|xs| - 1], val)
  }

  lemma {:induction false} LayJoin(mem: seq<byte>, a: seq<Leaf>, b: seq<Leaf>, val: Values)
    ensures LayAll(mem, a + b, val) == LayAll(LayAll(mem, a, val), b, val)
    decreases |b|
  {
    if b == [] {
      assert a + b == a;
    } else {
      var n := |b| - 1;
      assert (a + b)[..|a + b| - 1] == a + b[..n] && (a + b)[|a + b| - 1] == b[n];
      LayJoin(mem, a, b[..n], val);
    }
  }

  lemma LayLeaf(mem: seq<byte>, x: Leaf, val: Values)
    ensures LayAll(mem, [x], val) == LayOne(mem, x, val)
  {
    assert [x][..0] == [] && LayAll(mem, [], val) == mem;
  }

  predicate Folds(x: Leaf) { x.Number? ==> EvalConst(x.e).Some? }

  predicate AllFold(xs: seq<Leaf>) { forall i | 0 <= i < |xs| :: Folds(xs[i]) }

  // ----- the global back end makes them -----

  /** the outcome for given leaves: an error unless all fold */
  function GlobalOf(buf: seq<byte>, xs: Option<seq<Leaf>>): Option<seq<byte>> {
    if xs.Some? && AllFold(xs.value) then Some(LayAll(buf, xs.value, Folded())) else None
  }

  lemma {:induction false} GlobalLays(buf: seq<byte>, t: Type, ini: Init, off: nat)
    requires Room(t, buf, off)
    ensures Materialize(buf, t, ini, off) == GlobalOf(buf, Leaves(t, ini, off))
    decreases ini, if ini.List? then |ini.items| + 1 else 0
  {
    match ini
    case Value(e) => if t.Scalar? { LayLeaf(buf, Number(off, t.bytes, e), Folded()); }
    case Text(str) =>
      if IsText(t) {
        TextSize(t);
        LayLeaf(buf, Chars(off, str[..Min(|str|, t.len)]), Folded());
      }
    case List(items) => if !t.Scalar? && !TooMany(t, items) { GlobalItems(buf, t, ini, off, |items|); }
  }

  lemma {:induction false} GlobalItems(buf: seq<byte>, t: Type, ini: Init, off: nat, k: nat)
    requires Room(t, buf, off) && ini.List? && k <= |ini.items|
    ensures MaterializeItems(buf, t, ini, off, k) == GlobalOf(buf, LeafItems(t, ini, off, k))
    decreases ini, k
  {
    if k > 0 {
      GlobalItems(buf, t, ini, off, k - 1);
      var more := LeafStep(t, ini, off, k);
      MaterializeStep(buf, t, ini, off, k);
      var item, front := ini.items[k - 1], LeafItems(t, ini, off, k - 1);
      if front.Some? && Part(t, item.index).Some? {
        GlobalItem(LayAll(buf, front.value, Folded()), t, item, off, more);
        GlobalJoin(buf, front.value, more);
      }
    }
  }

  lemma GlobalItem(mid: seq<byte>, t: Type, item: Item, off: nat, more: Option<seq<Leaf>>)
    requires Room(t, mid, off) && Part(t, item.index).Some?
    requires more == Leaves(Part(t, item.index).value.1, item.init, off + Part(t, item.index).value.0)
    ensures
      var (at, p) := Part(t, item.index).value;
      Room(p, mid, off + at) && Materialize(mid, p, item.init, off + at) == GlobalOf(mid, more)
    decreases item, 0, 0
  {
    var (at, p) := Part(t, item.index).value;
    PartInside(t, item.index);
    GlobalLays(mid, p, item.init, off + at);
  }

  lemma MaterializeStep(buf: seq<byte>, t: Type, ini: Init, off: nat, k: nat)
    requires Room(t, buf, off) && ini.List? && 0 < k <= |ini.items|
    ensures
      var item := ini.items[k - 1];
      var g, r := MaterializeItems(buf, t, ini, off, k - 1), MaterializeItems(buf, t, ini, off, k);
      if g.None? || Part(t, item.index).None? then r.None?
      else
        var (at, p) := Part(t, item.index).value;
        Room(p, g.value, off + at) && r == Materialize(g.value, p, item.init, off + at)
  {
    if Part(t, ini.items[k - 1].index).Some? { PartInside(t, ini.items[k - 1].index); }
  }

  lemma GlobalJoin(buf: seq<byte>, front: seq<Leaf>, more: Option<seq<Leaf>>)
    ensures more.Some? ==> (AllFold(front + more.value) <==> AllFold(front) && AllFold(more.value))
    ensures more.Some? && AllFold(front) ==>
      GlobalOf(buf, Some(front + more.value)) == GlobalOf(LayAll(buf, front, Folded()), more)
  {
    if more.Some? {
      var all := front + more.value;
      if AllFold(all) {
        forall i | 0 <= i < |front| ensures Folds(front[i]) { assert all[i] == front[i]; }
        forall i | 0 <= i < |more.value| ensures Folds(more.value[i]) { assert all[|front| + i] == more.value[i]; }
      }
      LayJoin(buf, front, more.value, Folded());
    }
  }

  // ----- the local back end makes them -----

  lemma {:induction false} RunJoin(mem: seq<byte>, a: seq<Assign>, b: seq<Assign>, env: Env)
    ensures RunAll(mem, a + b, env) == RunAll(RunAll(mem, a, env), b, env)
    decreases |b|
  {
    if b == [] {
      assert a + b == a;
    } else {
      var n := |b| - 1;
      assert (a + b)[..|a + b| - 1] == a + b[..n] && (a + b)[|a + b| - 1] == b[n];
      RunJoin(mem, a, b[..n], env);
    }
  }

  /** copying a string byte by byte */
  lemma {:induction false} CharsAgree(mem: seq<byte>, lv: Lvalue, str: seq<byte>, n: nat, env: Env)
    requires n <= |str| && Address(lv) + n <= |mem|
    ensures RunAll(mem, CharAssigns(lv, str, n), env) == Patch(mem, Address(lv), str[..n])
    decreases n
  {
    var s, at := CharAssigns(lv, str, n), Address(lv);
    if n == 0 {
      assert Patch(mem, at, str[..0]) == mem;
    } else {
      assert s[..n - 1] == CharAssigns(lv, str, n - 1);
      CharsAgree(mem, lv, str, n - 1, env);
      assert Address(Element(lv, n - 1, 1)) == at + (n - 1);
      OneMore(mem, at, str, n);
    }
  }

  lemma OneMore(mem: seq<byte>, at: nat, str: seq<byte>, n: nat)
    requires 0 < n <= |str| && at + n <= |mem|
    ensures Patch(Patch(mem, at, str[..n - 1]), at + (n - 1), [str[n - 1]]) == Patch(mem, at, str[..n])
  {
    assert str[..n] == str[..n - 1] + [str[n - 1]];
  }

  lemma ValueLays(mem: seq<byte>, lv: Lvalue, n: nat, e: Expr, env: Env)
    ensures RunAll(mem, [AssignExpr(lv, n, e)], env) == LayAll(mem, [Number(Address(lv), n, e)], Computed(env))
  {
    var a := AssignExpr(lv, n, e);
    assert [a][..0] == [] && RunAll(mem, [], env) == mem;
    LayLeaf(mem, Number(Address(lv), n, e), Computed(env));
  }

  /** l makes the writes xs */
  ghost predicate LocalIs(mem: seq<byte>, l: Option<seq<Assign>>, xs: Option<seq<Leaf>>, env: Env) {
    (l.Some? <==> xs.Some?) && (l.Some? ==> RunAll(mem, l.value, env) == LayAll(mem, xs.value, Computed(env)))
  }

  lemma {:induction false} LocalLays(mem: seq<byte>, lv: Lvalue, t: Type, ini: Init, env: Env)
    requires Room(t, mem, Address(lv))
    ensures LocalIs(mem, BuildLocal(lv, t, ini), Leaves(t, ini, Address(lv)), env)
    decreases ini, if ini.List? then |ini.items| + 1 else 0
  {
    match ini
    case Value(e) => if t.Scalar? { ValueLays(mem, lv, t.bytes, e, env); }
    case Text(str) =>
      if IsText(t) {
        TextSize(t);
        var n := Min(|str|, t.len);
        CharsAgree(mem, lv, str, n, env);
        LayLeaf(mem, Chars(Address(lv), str[..n]), Computed(env));
      }
    case List(items) => if !t.Scalar? && !TooMany(t, items) { LocalItems(mem, lv, t, ini, |items|, env); }
  }

  lemma {:induction false} LocalItems(mem: seq<byte>, lv: Lvalue, t: Type, ini: Init, k: nat, env: Env)
    requires Room(t, mem, Address(lv)) && ini.List? && k <= |ini.items|
    ensures LocalIs(mem, BuildItems(lv, t, ini, k), LeafItems(t, ini, Address(lv), k), env)
    decreases ini, k
  {
    if k > 0 {
      LocalItems(mem, lv, t, ini, k - 1, env);
      LocalMore(mem, lv, t, ini, k, env);
    }
  }

  lemma LocalMore(mem: seq<byte>, lv: Lvalue, t: Type, ini: Init, k: nat, env: Env)
    requires Room(t, mem, Address(lv)) && ini.List? && 0 < k <= |ini.items|
    requires LocalIs(mem, BuildItems(lv, t, ini, k - 1), LeafItems(t, ini, Address(lv), k - 1), env)
    ensures LocalIs(mem, BuildItems(lv, t, ini, k), LeafItems(t, ini, Address(lv), k), env)
    decreases ini, k - 1
  {
    var more := BuildStep(lv, t, ini, k);
    var ys := LeafStep(t, ini, Address(lv), k);
    var item, front := ini.items[k - 1], BuildItems(lv, t, ini, k - 1);
    if front.Some? && Part(t, item.index).Some? {
      LocalItem(mem, lv, t, item, front.value, LeafItems(t, ini, Address(lv), k - 1).value, more, ys, env);
    }
  }

  /** the items before item k, then that item */
  lemma BuildStep(lv: Lvalue, t: Type, ini: Init, k: nat) returns (more: Option<seq<Assign>>)
    requires ini.List? && 0 < k <= |ini.items|
    ensures
      var item, l, r := ini.items[k - 1], BuildItems(lv, t, ini, k - 1), BuildItems(lv, t, ini, k);
      if l.None? || Part(t, item.index).None? then r.None?
      else
        && more == BuildLocal(SubLvalue(lv, t, item.index), Part(t, item.index).value.1, item.init)
        && r == if more.None? then None else Some(l.value + more.value)
  {
    var item := ini.items[k - 1];
    more := None;
    if Part(t, item.index).Some? {
      more := BuildLocal(SubLvalue(lv, t, item.index), Part(t, item.index).value.1, item.init);
    }
  }

  lemma LeafStep(t: Type, ini: Init, off: nat, k: nat) returns (more: Option<seq<Leaf>>)
    requires ini.List? && 0 < k <= |ini.items|
    ensures
      var item, l, r := ini.items[k - 1], LeafItems(t, ini, off, k - 1), LeafItems(t, ini, off, k);
      if l.None? || Part(t, item.index).None? then r.None?
      else
        && more == Leaves(Part(t, item.index).value.1, item.init, off + Part(t, item.index).value.0)
        && r == if more.None? then None else Some(l.value + more.value)
  {
    var item := ini.items[k - 1];
    more := None;
    if Part(t, item.index).Some? {
      more := Leaves(Part(t, item.index).value.1, item.init, off + Part(t, item.index).value.0);
    }
  }

  lemma SubAddress(lv: Lvalue, t: Type, index: nat)
    requires Part(t, index).Some?
    ensures Address(SubLvalue(lv, t, index)) == Address(lv) + Part(t, index).value.0
  {
  }

  lemma LocalItem(mem: seq<byte>, lv: Lvalue, t: Type, item: Item, front: seq<Assign>, xs: seq<Leaf>,
        more: Option<seq<Assign>>, ys: Option<seq<Leaf>>, env: Env)
    requires Room(t, mem, Address(lv)) && Part(t, item.index).Some? && LocalIs(mem, Some(front), Some(xs), env)
    requires more == BuildLocal(SubLvalue(lv, t, item.index), Part(t, item.index).value.1, item.init)
    requires ys == Leaves(Part(t, item.index).value.1, item.init, Address(lv) + Part(t, item.index).value.0)
    ensures more.Some? <==> ys.Some?
    ensures more.Some? ==> LocalIs(mem, Some(front + more.value), Some(xs + ys.value), env)
    decreases item, 0, 0
  {
    var (at, p) := Part(t, item.index).value;
    var sub := SubLvalue(lv, t, item.index);
    PartInside(t, item.index);
    SubAddress(lv, t, item.index);
    LocalLays(RunAll(mem, front, env), sub, p, item.init, env);
    LocalJoin(mem, front, xs, more, ys, env);
  }

  lemma LocalJoin(mem: seq<byte>, front: seq<Assign>, xs: seq<Leaf>, more: Option<seq<Assign>>, ys: Option<seq<Leaf>>,
        env: Env)
    requires LocalIs(mem, Some(front), Some(xs), env) && LocalIs(RunAll(mem, front, env), more, ys, env)
    ensures more.Some? ==> LocalIs(mem, Some(front + more.value), Some(xs + ys.value), env)
  {
    if more.Some? {
      RunJoin(mem, front, more.value, env);
      LayJoin(mem, xs, ys.value, Computed(env));
    }
  }

  // ----- when the bytes are the same -----

  predicate Covers(x: Leaf, k: nat, n: nat) {
    var len := if x.Number? then x.bytes else |x.str|;
    x.at <= k < x.at + len <= n
  }

  /** the byte a leaf leaves at k */
  function ByteOf(x: Leaf, k: nat, n: nat, val: Values): byte
    requires Covers(x, k, n)
  {
    LeafBytes(x, val)[k - x.at]
  }

  /** of the leaves covering byte k of n, the last one writes the same byte when it
      is folded and when it is computed */
  predicate Settled(xs: seq<Leaf>, k: nat, n: nat, f: Values, g: Values)
    decreases |xs|
  {
    xs == [] ||
    var x := xs[|xs| - 1];
    if Covers(x, k, n) then ByteOf(x, k, n, f) == ByteOf(x, k, n, g) else Settled(xs[..|xs| - 1], k, n, f, g)
  }

  ghost predicate AllSettled(xs: seq<Leaf>, n: nat, f: Values, g: Values) {
    forall k: nat {:trigger Settled(xs, k, n, f, g)} | k < n :: Settled(xs, k, n, f, g)
  }

  lemma {:induction false} SettledByte(mem: seq<byte>, xs: seq<Leaf>, k: nat, f: Values, g: Values)
    requires k < |mem|
    ensures LayAll(mem, xs, f)[k] == LayAll(mem, xs, g)[k] <==> Settled(xs, k, |mem|, f, g)
    decreases |xs|
  {
    if xs != [] { SettledByte(mem, xs[..|xs| - 1], k, f, g); }
  }

  lemma LaysExactly(mem: seq<byte>, xs: seq<Leaf>, f: Values, g: Values)
    ensures LayAll(mem, xs, f) == LayAll(mem, xs, g) <==> AllSettled(xs, |mem|, f, g)
  {
    var x, y := LayAll(mem, xs, f), LayAll(mem, xs, g);
    forall k: nat | k < |mem| ensures x[k] == y[k] <==> Settled(xs, k, |mem|, f, g) { SettledByte(mem, xs, k, f, g); }
    if x != y {
      var k: nat :| k < |mem| && x[k] != y[k];
      assert !Settled(xs, k, |mem|, f, g);
    }
  }

  /** For every initialiser tree over every type: the global back end accepts it if
      and only if the local one does and all its values fold; and then the bytes it
      lays down are those the local's assignments leave if and only if, on every
      byte, the last value covering it folds to the byte it computes. */
  lemma InitExactly(mem: seq<byte>, lv: Lvalue, t: Type, ini: Init, env: Env)
    requires Room(t, mem, Address(lv))
    ensures
      var g, l := Materialize(mem, t, ini, Address(lv)), BuildLocal(lv, t, ini);
      var xs := Leaves(t, ini, Address(lv));
      && (l.Some? <==> xs.Some?) && (g.Some? <==> l.Some? && AllFold(xs.value))
      && (g.Some? ==> (RunAll(mem, l.value, env) == g.value <==>
                       AllSettled(xs.value, |mem|, Computed(env), Folded())))
  {
    GlobalLays(mem, t, ini, Address(lv));
    LocalLays(mem, lv, t, ini, env);
    var xs := Leaves(t, ini, Address(lv));
    if xs.Some? { LaysExactly(mem, xs.value, Computed(env), Folded()); }
  }

  // ----- constants that fit -----

  /** every value is a constant whose folding is exact */
  ghost predicate Constant(ini: Init, lay: Layout) {
    match ini
    case Value(e) => Wf(e, lay) && InRange(e)
    case Text(_) => true
    case List(items) => forall i | 0 <= i < |items| :: Constant(items[i].init, lay)
  }

  ghost predicate LeafFits(x: Leaf, lay: Layout) { x.Number? ==> Wf(x.e, lay) && InRange(x.e) }

  ghost predicate LeavesFit(xs: Option<seq<Leaf>>, lay: Layout) {
    xs.Some? ==> forall i | 0 <= i < |xs.value| :: LeafFits(xs.value[i], lay)
  }

  lemma {:induction false} ConstantLeaves(t: Type, ini: Init, off: nat, lay: Layout)
    requires Constant(ini, lay)
    ensures LeavesFit(Leaves(t, ini, off), lay)
    decreases ini, if ini.List? then |ini.items| + 1 else 0
  {
    if ini.List? { ConstantItems(t, ini, off, |ini.items|, lay); }
  }

  lemma {:induction false} ConstantItems(t: Type, ini: Init, off: nat, k: nat, lay: Layout)
    requires ini.List? && Constant(ini, lay) && k <= |ini.items|
    ensures LeavesFit(LeafItems(t, ini, off, k), lay)
    decreases ini, k
  {
    if k > 0 {
      var item := ini.items[k - 1];
      ConstantItems(t, ini, off, k - 1, lay);
      if Part(t, item.index).Some? {
        var (at, p) := Part(t, item.index).value;
        ConstantLeaves(p, item.init, off + at, lay);
      }
    }
  }

  lemma {:induction false} FitSettled(xs: seq<Leaf>, k: nat, n: nat, env: Env, lay: Layout)
    requires LeavesFit(Some(xs), lay) && EnvOk(env, lay)
    ensures Settled(xs, k, n, Computed(env), Folded())
    decreases |xs|
  {
    if xs != [] {
      var x := xs[|xs| - 1];
      assert LeafFits(x, lay);
      if x.Number? { FoldAgrees(x.e, env, lay); }
      var front := xs[..|xs| - 1];
      forall i | 0 <= i < |front| ensures LeafFits(front[i], lay) { assert LeafFits(xs[i], lay); }
      FitSettled(front, k, n, env, lay);
    }
  }

  /** For every initialiser tree over every type whose constants fit the types of
      their nodes, running the assignments build_local_init generates leaves exactly
      the bytes materialize_global_init lays down, and one reports an error when the
      other does. */
  lemma InitAgrees(mem: seq<byte>, lv: Lvalue, t: Type, ini: Init, env: Env, lay: Layout)
    requires Room(t, mem, Address(lv)) && Constant(ini, lay) && EnvOk(env, lay)
    ensures
      var g, l := Materialize(mem, t, ini, Address(lv)), BuildLocal(lv, t, ini);
      (g.Some? <==> l.Some?) && (g.Some? ==> RunAll(mem, l.value, env) == g.value)
  {
    InitExactly(mem, lv, t, ini, env);
    ConstantLeaves(t, ini, Address(lv), lay);
    var xs := Leaves(t, ini, Address(lv));
    if xs.Some? {
      forall i | 0 <= i < |xs.value| ensures Folds(xs.value[i]) { assert LeafFits(xs.value[i], lay); }
      forall k: nat {:trigger Settled(xs.value, k, |mem|, Computed(env), Folded())} | k < |mem|
        ensures Settled(xs.value, k, |mem|, Computed(env), Folded())
      {
        FitSettled(xs.value, k, |mem|, env, lay);
      }
    }
  }

  /** The whole declaration: a local cleared by ND_MEMZERO and then assigned holds
      the bytes of the global. */
  lemma DeclarationAgrees(t: Type, ini: Init, env: Env, lay: Layout)
    requires TypeOk(t) && Constant(ini, lay) && EnvOk(env, lay)
    ensures
      var g, l := Materialize(Zeros(SizeOf(t)), t, ini, 0), BuildLocal(Root, t, ini);
      (g.Some? <==> l.Some?) && (g.Some? ==> RunAll(Zeros(SizeOf(t)), l.value, env) == g.value)
  {
    InitAgrees(Zeros(SizeOf(t)), Root, t, ini, env, lay);
  }

  /** It fails for constants that do not fit: `long a[1] = { 2147483647 + 1 };` is
      2147483648 as a global and -2147483648 as a local; `long a[1] = { 1 / 0 };` is
      an error as a global only. */
  lemma DeclarationDiffers(env: Env)
    ensures
      var t := Array(Scalar(8), 1);
      var over := List([Item(0, Value(Bin(Add, Num(0x7fff_ffff), Num(1))))]);
      var zero := List([Item(0, Value(Bin(Div, Num(1), Num(0))))]);
      var g, l := Materialize(Zeros(8), t, over, 0), BuildLocal(Root, t, over);
      && SizeOf(t) == 8 && g.Some? && l.Some? && RunAll(Zeros(8), l.value, env) != g.value
      && Materialize(Zeros(8), t, zero, 0).None? && BuildLocal(Root, t, zero).Some?
  {
    var t := Array(Scalar(8), 1);
    var x, z := Bin(Add, Num(0x7fff_ffff), Num(1)), Bin(Div, Num(1), Num(0));
    OneElement(x);
    OneElement(z);
    InitExactly(Zeros(8), Root, t, OneItem(x), env);
    InitExactly(Zeros(8), Root, t, OneItem(z), env);
    OverflowUnsettled(x, env);
  }

  function OneItem(e: Expr): Init { List([Item(0, Value(e))]) }

  lemma OneElement(e: Expr)
    ensures Room(Array(Scalar(8), 1), Zeros(8), 0)
    ensures Leaves(Array(Scalar(8), 1), OneItem(e), 0) == Some([Number(0, 8, e)])
  {
    var t, ini := Array(Scalar(8), 1), OneItem(e);
    assert SizeOf(t) == 8 && Part(t, 0) == Some((0, Scalar(8)));
    assert LeafItems(t, ini, 0, 0) == Some([]) && [] + [Number(0, 8, e)] == [Number(0, 8, e)];
    assert ini.items[0] == Item(0, Value(e)) && Leaves(Scalar(8), Value(e), 0) == Some([Number(0, 8, e)]);
    assert LeafItems(t, ini, 0, 1) == Some([Number(0, 8, e)]);
  }

  lemma OverflowUnsettled(x: Expr, env: Env)
    requires x == Bin(Add, Num(0x7fff_ffff), Num(1))
    ensures AllFold([Number(0, 8, x)]) && !AllSettled([Number(0, 8, x)], 8, Computed(env), Folded())
  {
    FoldDiffersOnOverflow();
    assert EvalConst(x) == Some(0x8000_0000) && Eval(x, env).0 == -0x8000_0000;
    var leaf := Number(0, 8, x);
    assert Shifted(0x8000_0000, 4) == 0 && Shifted(-0x8000_0000, 4) == -1;
    assert ByteOf(leaf, 4, 8, Folded()) == 0 && ByteOf(leaf, 4, 8, Computed(env)) == 255;
    assert !Settled([leaf], 4, 8, Computed(env), Folded());
  }
}
