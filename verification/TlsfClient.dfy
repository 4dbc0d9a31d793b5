/** Whole runs: a program that keeps its pointers in numbered slots and calls
    malloc, calloc, realloc and free in any order sees nothing but independent
    byte arrays. */
module TlsfClient {
  import opened Options
  import opened TlsfMapping
  import opened TlsfHeap
  import opened TlsfPayload
  import opened Tlsf

  /** a slot holds a pointer and what its bytes are known to be */
  datatype Slot = Slot(ptr: Addr, bytes: seq<Option<nat>>)

  datatype Op =
    | DoMalloc(slot: nat, size: nat)
    | DoCalloc(slot: nat, nmemb: nat, size: nat)
    | DoRealloc(slot: nat, size: nat)
    | DoFree(slot: nat)
    | DoWrite(slot: nat, index: nat, value: nat)

  type Table = map<nat, Slot>

  function Unknown(n: nat): seq<Option<nat>> { seq(n, _ => None) }
  function Zeros(n: nat): seq<Option<nat>> { seq(n, _ => Some(0)) }

  /** realloc keeps a prefix and adds bytes of no known value */
  function Resize(bytes: seq<Option<nat>>, n: nat): seq<Option<nat>> {
    if n <= |bytes| then bytes[..n] else bytes + Unknown(n - |bytes|)
  }

  ghost predicate HoldsAt(c: Cells, s: Slot, i: nat) {
    i < |s.bytes| && (s.bytes[i].Some? ==> ByteAt(c, s.ptr + i) == s.bytes[i])
  }

  ghost predicate Holds(c: Cells, s: Slot) {
    forall i: nat {:trigger HoldsAt(c, s, i)} | i < |s.bytes| :: HoldsAt(c, s, i)
  }

  ghost predicate SlotOk(c: Cells, live: map<Addr, nat>, s: Slot) {
    s.ptr != 0 && s.ptr in live && live[s.ptr] == |s.bytes| && s.ptr % ALIGN == 0 && Holds(c, s)
  }

  /** every slot's pointer is live and its memory holds the expected bytes */
  ghost predicate Matches(c: Cells, live: map<Addr, nat>, t: Table) {
    && (forall k {:trigger SlotOk(c, live, t[k])} | k in t :: SlotOk(c, live, t[k]))
    && (forall j, k {:trigger t[j].ptr, t[k].ptr} | j in t && k in t && j != k :: t[j].ptr != t[k].ptr)
  }

  lemma HoldsKept(c: Cells, c': Cells, live: map<Addr, nat>, s: Slot)
    requires SlotOk(c, live, s) && KeptAt(c, c', live, s.ptr)
    ensures Holds(c', s)
  {
    forall i: nat {:trigger HoldsAt(c', s, i)} | i < |s.bytes| ensures HoldsAt(c', s, i) {
      assert HoldsAt(c, s, i);
      SameBytes(c, c', s.ptr, s.ptr + live[s.ptr], s.ptr + i);
    }
  }

  /** all slots except the one whose pointer was p carry over */
  lemma Others(c: Cells, live: map<Addr, nat>, c': Cells, live': map<Addr, nat>, t: Table, p: Addr)
    requires Matches(c, live, t) && ContentsKept(c, c', live, p) && (forall k | k in t :: t[k].ptr != p)
    requires forall x | x in live && x != p :: x in live' && live'[x] == live[x]
    ensures Matches(c', live', t)
  {
    forall k {:trigger SlotOk(c', live', t[k])} | k in t ensures SlotOk(c', live', t[k]) {
      assert SlotOk(c, live, t[k]);
      assert KeptAt(c, c', live, t[k].ptr);
      HoldsKept(c, c', live, t[k]);
    }
  }

  lemma AddSlot(c: Cells, live: map<Addr, nat>, t: Table, k: nat, s: Slot)
    requires Matches(c, live, t) && SlotOk(c, live, s) && k !in t && (forall j | j in t :: t[j].ptr != s.ptr)
    ensures Matches(c, live, t[k := s])
  {
    var t' := t[k := s];
    forall j {:trigger SlotOk(c, live, t'[j])} | j in t' ensures SlotOk(c, live, t'[j]) {
      if j != k { assert SlotOk(c, live, t[j]); }
    }
  }

  lemma DropSlot(c: Cells, live: map<Addr, nat>, t: Table, k: nat)
    requires Matches(c, live, t) && k in t
    ensures Matches(c, live, t - {k}) && SlotOk(c, live, t[k])
    ensures forall j | j in t - {k} :: (t - {k})[j].ptr != t[k].ptr
  {
    var t' := t - {k};
    assert SlotOk(c, live, t[k]);
    forall j {:trigger SlotOk(c, live, t'[j])} | j in t' ensures SlotOk(c, live, t'[j]) {
      assert SlotOk(c, live, t[j]);
    }
  }

  // ----- what a run may do, without pointers -----

  type Arrays = map<nat, seq<Option<nat>>>

  function Abs(t: Table): Arrays { map k | k in t :: t[k].bytes }

  /** no heap can serve the size: it is refused, or no region is as large as the class
      that would be searched */
  ghost predicate TooLarge(size: nat) {
    match SizeToBlock(size)
    case None => true
    case Some(need) => MappingSearch(need).None? || ClassMin(MappingSearch(need).value) > MAX_BLOCK - OVERHEAD
  }

  /** an allocation fails only for such a size, or when the kernel, asked for memory
      between the two logs, had none */
  ghost predicate MayFail(before: seq<Answer>, after: seq<Answer>, size: nat) {
    TooLarge(size) || exists n :: Denied(before, after, n)
  }

  lemma ExhaustedFails(c: Cells, listed: set<Addr>, cache: seq<Region>, before: seq<Answer>, after: seq<Answer>,
        size: nat)
    requires Exhausted(c, listed, cache, before, after, size)
    ensures MayFail(before, after, size)
  {
  }

  /** the effect of one call on independent byte arrays; an allocation that fails
      changes nothing; calls on the wrong kind of slot are skipped */
  ghost predicate Allowed(a: Arrays, op: Op, a': Arrays, before: seq<Answer>, after: seq<Answer>) {
    match op
    case DoMalloc(k, n) => if k in a then a' == a else Grants(a, k, Unknown(n), a', before, after)
    case DoCalloc(k, m, n) => if k in a then a' == a else Grants(a, k, Zeros(m * n), a', before, after)
    case DoRealloc(k, n) =>
      if k !in a then a' == a
      else if n == 0 then a' == a - {k}
      else Grants(a, k, Resize(a[k], n), a', before, after)
    case DoFree(k) => a' == a - {k}
    case DoWrite(k, i, v) => if k in a && i < |a[k]| then a' == a[k := a[k][i := Some(v)]] else a' == a
  }

  /** slot k gets these bytes, unless the allocation may fail and does */
  ghost predicate Grants(a: Arrays, k: nat, bytes: seq<Option<nat>>, a': Arrays, before: seq<Answer>,
      after: seq<Answer>)
  {
    a' == a[k := bytes] || (a' == a && MayFail(before, after, |bytes|))
  }

  /** one entry of the trace and of the kernel's log for every call */
  ghost predicate AllowedRun(trace: seq<Arrays>, logs: seq<seq<Answer>>, ops: seq<Op>) {
    && |trace| == |logs| == |ops| + 1 && trace[0] == map[] && logs[0] == []
    && forall i | 0 <= i < |ops| :: Allowed(trace[i], ops[i], trace[i + 1], logs[i], logs[i + 1])
  }

  method StepMalloc(heap: Allocator, t: Table, op: Op) returns (t': Table)
    requires heap.Valid() && Matches(heap.cell, heap.live, t) && op.DoMalloc?
    modifies heap
    ensures heap.Valid() && Matches(heap.cell, heap.live, t') && Allowed(Abs(t), op, Abs(t'), old(heap.log), heap.log)
  {
    t' := t;
    if op.slot !in t {
      ghost var c0, live0 := heap.cell, heap.live;
      NotZero(c0, live0, t);
      ghost var listed0, cache0, log0 := heap.listed, heap.cache, heap.log;
      var p := heap.Malloc(op.size);
      Others(c0, live0, heap.cell, heap.live, t, 0);
      if p == 0 {
        ExhaustedFails(c0, listed0, cache0, log0, heap.log, op.size);
      } else {
        NewPointer(c0, live0, t, p);
        var s := Slot(p, Unknown(op.size));
        forall i: nat {:trigger HoldsAt(heap.cell, s, i)} | i < |s.bytes| ensures HoldsAt(heap.cell, s, i) {}
        AddSlot(heap.cell, heap.live, t, op.slot, s);
        t' := t[op.slot := s];
        assert Abs(t') == Abs(t)[op.slot := Unknown(op.size)];
      }
    }
  }

  method StepCalloc(heap: Allocator, t: Table, op: Op) returns (t': Table)
    requires heap.Valid() && Matches(heap.cell, heap.live, t) && op.DoCalloc? && op.nmemb < Words.WORD_MAX
    requires op.size < Words.WORD_MAX
    modifies heap
    ensures heap.Valid() && Matches(heap.cell, heap.live, t') && Allowed(Abs(t), op, Abs(t'), old(heap.log), heap.log)
  {
    t' := t;
    if op.slot !in t {
      ghost var c0, live0, n: nat := heap.cell, heap.live, op.nmemb * op.size;
      ghost var listed0, cache0, log0 := heap.listed, heap.cache, heap.log;
      NotZero(c0, live0, t);
      var p := heap.Calloc(op.nmemb, op.size);
      Others(c0, live0, heap.cell, heap.live, t, 0);
      if p == 0 {
        ExhaustedFails(c0, listed0, cache0, log0, heap.log, n);
      } else {
        NewPointer(c0, live0, t, p);
        var s := Slot(p, Zeros(op.nmemb * op.size));
        ZerosHold(heap.cell, s, n);
        AddSlot(heap.cell, heap.live, t, op.slot, s);
        t' := t[op.slot := s];
        assert Abs(t') == Abs(t)[op.slot := Zeros(n)];
      }
    }
  }

  lemma ZerosHold(c: Cells, s: Slot, n: nat)
    requires s.bytes == Zeros(n) && forall i: nat {:trigger ByteIs(c, s.ptr, i, 0)} | i < n :: ByteIs(c, s.ptr, i, 0)
    ensures Holds(c, s)
  {
    forall i: nat {:trigger HoldsAt(c, s, i)} | i < |s.bytes| ensures HoldsAt(c, s, i) {
      assert ByteIs(c, s.ptr, i, 0);
    }
  }

  method StepFree(heap: Allocator, t: Table, op: Op) returns (t': Table)
    requires heap.Valid() && Matches(heap.cell, heap.live, t) && op.DoFree?
    modifies heap
    ensures heap.Valid() && Matches(heap.cell, heap.live, t') && Allowed(Abs(t), op, Abs(t'), old(heap.log), heap.log)
  {
    t' := t - {op.slot};
    assert Abs(t') == Abs(t) - {op.slot};
    if op.slot in t {
      ghost var c0, live0 := heap.cell, heap.live;
      DropSlot(c0, live0, t, op.slot);
      heap.Free(t[op.slot].ptr);
      Others(c0, live0, heap.cell, heap.live, t', t[op.slot].ptr);
    } else {
      assert t' == t;
    }
  }

  method StepRealloc(heap: Allocator, t: Table, op: Op) returns (t': Table)
    requires heap.Valid() && Matches(heap.cell, heap.live, t) && op.DoRealloc?
    modifies heap
    ensures heap.Valid() && Matches(heap.cell, heap.live, t') && Allowed(Abs(t), op, Abs(t'), old(heap.log), heap.log)
  {
    t' := t;
    if op.slot in t {
      ghost var c0, live0 := heap.cell, heap.live;
      NotZero(c0, live0, t);
      DropSlot(c0, live0, t, op.slot);
      var s0 := t[op.slot];
      ghost var listed0, cache0, log0 := heap.listed, heap.cache, heap.log;
      var q := heap.Realloc(s0.ptr, op.size);
      if q == 0 {
        if op.size == 0 {
          t' := t - {op.slot};
          Others(c0, live0, heap.cell, heap.live, t', s0.ptr);
          assert Abs(t') == Abs(t) - {op.slot};
        } else {
          ExhaustedFails(c0, listed0, cache0, log0, heap.log, op.size);
          Others(c0, live0, heap.cell, heap.live, t, 0);
        }
        return;
      }
      var rest := t - {op.slot};
      Others(c0, live0, heap.cell, heap.live, rest, s0.ptr);
      if q != s0.ptr { NewPointer(c0, live0, t, q); }
      var s := Slot(q, Resize(s0.bytes, op.size));
      ResizedHolds(c0, heap.cell, s0, s, op.size);
      AddSlot(heap.cell, heap.live, rest, op.slot, s);
      t' := rest[op.slot := s];
      assert Abs(t') == Abs(t)[op.slot := Resize(Abs(t)[op.slot], op.size)];
    }
  }

  method StepWrite(heap: Allocator, t: Table, op: Op) returns (t': Table)
    requires heap.Valid() && Matches(heap.cell, heap.live, t) && op.DoWrite?
    modifies heap
    ensures heap.Valid() && Matches(heap.cell, heap.live, t') && Allowed(Abs(t), op, Abs(t'), old(heap.log), heap.log)
  {
    t' := t;
    if op.slot in t && op.index < |t[op.slot].bytes| {
      ghost var c0, live0 := heap.cell, heap.live;
      DropSlot(c0, live0, t, op.slot);
      var s0 := t[op.slot];
      heap.PayloadAddressable(s0.ptr);
      var n := |s0.bytes|;
      var c := StoreByte(heap.cell, s0.ptr + op.index, op.value);
      StoreInside(heap.cell, heap.cell, s0.ptr, n, op.index, op.value);
      heap.UserWrite(c, s0.ptr, n);
      var rest := t - {op.slot};
      Others(c0, live0, heap.cell, heap.live, rest, s0.ptr);
      var s := s0.(bytes := s0.bytes[op.index := Some(op.value)]);
      forall i: nat {:trigger HoldsAt(heap.cell, s, i)} | i < |s.bytes| ensures HoldsAt(heap.cell, s, i) {
        assert HoldsAt(c0, s0, i);
        StoreByteEffect(c0, s0.ptr + op.index, op.value, s0.ptr + i);
      }
      AddSlot(heap.cell, heap.live, rest, op.slot, s);
      t' := rest[op.slot := s];
      assert Abs(t') == Abs(t)[op.slot := Abs(t)[op.slot][op.index := Some(op.value)]];
    }
  }

  lemma NotZero(c: Cells, live: map<Addr, nat>, t: Table)
    requires Matches(c, live, t)
    ensures forall k | k in t :: t[k].ptr != 0
  {
    forall k | k in t ensures t[k].ptr != 0 { assert SlotOk(c, live, t[k]); }
  }

  lemma NewPointer(c: Cells, live: map<Addr, nat>, t: Table, p: Addr)
    requires Matches(c, live, t) && p !in live
    ensures forall k | k in t :: t[k].ptr != p
  {
    forall k | k in t ensures t[k].ptr != p { assert SlotOk(c, live, t[k]); }
  }

  lemma ResizedHolds(c0: Cells, c: Cells, s0: Slot, s: Slot, n: nat)
    requires Holds(c0, s0) && s.bytes == Resize(s0.bytes, n) && CopiedTo(c0, c, s.ptr, s0.ptr, Min(|s0.bytes|, n))
    ensures Holds(c, s) && |s.bytes| == n
  {
    forall i: nat {:trigger HoldsAt(c, s, i)} | i < |s.bytes| ensures HoldsAt(c, s, i) {
      if i < |s0.bytes| {
        assert HoldsAt(c0, s0, i);
        assert Copied(c0, c, s.ptr, s0.ptr, i);
      }
    }
  }

  /** calloc's arguments are size_t values */
  predicate InRange(op: Op) { op.DoCalloc? ==> op.nmemb < Words.WORD_MAX && op.size < Words.WORD_MAX }

  /** Any sequence of calls, from an empty heap: the allocator's invariant holds
      throughout, the memory always holds what independent byte arrays would, and no
      allocation fails unless its size is too large or the kernel gave no memory. */
  method Run(ops: seq<Op>)
    returns (heap: Allocator, t: Table, ghost trace: seq<Arrays>, ghost logs: seq<seq<Answer>>)
    requires forall op | op in ops :: InRange(op)
    ensures heap.Valid() && Matches(heap.cell, heap.live, t)
    ensures AllowedRun(trace, logs, ops) && trace[|ops|] == Abs(t) && logs[|ops|] == heap.log
  {
    heap := new Allocator();
    t := map[];
    trace, logs := [Abs(t)], [heap.log];
    var i := 0;
    while i < |ops|
      invariant i <= |ops| && fresh(heap) && heap.Valid() && Matches(heap.cell, heap.live, t)
      invariant AllowedRun(trace, logs, ops[..i]) && trace[i] == Abs(t) && logs[i] == heap.log
    {
      var t1 := StepAny(heap, t, ops[i]);
      ExtendRun(trace, logs, ops[..i], ops[i], Abs(t1), heap.log);
      assert ops[..i + 1] == ops[..i] + [ops[i]];
      t := t1;
      trace, logs := trace + [Abs(t)], logs + [heap.log];
      i := i + 1;
    }
    assert ops[..i] == ops;
  }

  method StepAny(heap: Allocator, t: Table, op: Op) returns (t': Table)
    requires heap.Valid() && Matches(heap.cell, heap.live, t) && InRange(op)
    modifies heap
    ensures heap.Valid() && Matches(heap.cell, heap.live, t') && Allowed(Abs(t), op, Abs(t'), old(heap.log), heap.log)
  {
    match op {
      case DoMalloc(_, _) => t' := StepMalloc(heap, t, op);
      case DoCalloc(_, _, _) => t' := StepCalloc(heap, t, op);
      case DoRealloc(_, _) => t' := StepRealloc(heap, t, op);
      case DoFree(_) => t' := StepFree(heap, t, op);
      case DoWrite(_, _, _) => t' := StepWrite(heap, t, op);
    }
  }

  lemma ExtendRun(trace: seq<Arrays>, logs: seq<seq<Answer>>, ops: seq<Op>, op: Op, a: Arrays, log: seq<Answer>)
    requires AllowedRun(trace, logs, ops) && Allowed(trace[|ops|], op, a, logs[|ops|], log)
    ensures AllowedRun(trace + [a], logs + [log], ops + [op])
  {
    var tr, ls, os := trace + [a], logs + [log], ops + [op];
    forall i | 0 <= i < |os| ensures Allowed(tr[i], os[i], tr[i + 1], ls[i], ls[i + 1]) {
      if i < |ops| { assert Allowed(trace[i], ops[i], trace[i + 1], logs[i], logs[i + 1]); }
    }
  }
}
