/** The allocator itself: free lists, bitmaps, regions and cache as fields that
    every operation updates in place. */
module Tlsf {
  import opened Options
  import opened Words
  import opened TlsfMapping
  import opened TlsfHeap
  import opened TlsfLists
  import opened TlsfBitmap
  import opened TlsfSteps
  import opened TlsfRegions
  import opened TlsfPayload

  /** no free block reaches the smallest class a request of this size searches */
  ghost predicate NoFit(c: Cells, listed: set<Addr>, need: nat)
    requires BlockSize(need)
  {
    MappingSearch(need).Some? ==> forall a | a in listed ::
      IsHeader(c, a) && c[a].size < ClassMin(MappingSearch(need).value)
  }

  /** b reaches the smallest class a request of this size searches, and no free block
      that does is of a lower class than b */
  ghost predicate GoodFit(c: Cells, listed: set<Addr>, b: Addr, need: nat)
    requires BlockSize(need)
  {
    && MappingSearch(need).Some? && b in listed && IsHeader(c, b)
    && var min := ClassMin(MappingSearch(need).value);
    && min <= c[b].size
    && forall a | a in listed :: IsHeader(c, a) && (min <= c[a].size ==> ClassMin(ClassOf(c[b].size)) <= c[a].size)
  }

  /** the block of ptr, alone or with a free right neighbour, is large enough */
  ghost predicate FitsInPlace(c: Cells, ptr: Addr, size: nat) {
    && SizeToBlock(size).Some? && ptr >= HEADER && IsHeader(c, ptr - HEADER)
    && var need, b := SizeToBlock(size).value, ptr - HEADER;
    var next := b + c[b].size;
    need <= c[b].size || (IsHeader(c, next) && !c[next].used && need <= c[b].size + c[next].size)
  }

  /** a call of mmap and its outcome */
  datatype Answer = Refused(size: nat) | Given(r: Region)

  /** no region of this size can be made of the answer: mmap failed, or the address is
      not aligned */
  predicate Useless(a: Answer, size: nat) {
    match a
    case Refused(n) => n == size
    case Given(r) => r.size == size && r.base % ALIGN != 0
  }

  /** mmap was asked for so many bytes, twice if it refused at first, in vain */
  predicate Denied(before: seq<Answer>, after: seq<Answer>, size: nat) {
    && |after| > 0 && var (last, asked) := (after[|after| - 1], after[..|after| - 1]);
    && Useless(last, size) && ((asked == before && last.Given?) || asked == before + [Refused(size)])
  }

  /** what is asked for to hold a block of at least min bytes */
  function RegionSize(min: nat): nat {
    var want := if min + OVERHEAD < REGION_MIN then REGION_MIN else min + OVERHEAD;
    (want + PAGE - 1) / PAGE * PAGE
  }

  /** whole pages, 64 KiB or the least number that has room for the block */
  lemma RegionSizeLeast(min: nat)
    ensures var n := RegionSize(min); n % 4096 == 0 && n >= min + OVERHEAD && n >= 64 * 1024
    ensures var n := RegionSize(min); n == 64 * 1024 || n < min + OVERHEAD + 4096
    ensures MIN_BLOCK <= min <= MAX_BLOCK - OVERHEAD ==> RegionSize(min) <= MAX_BLOCK
  {
  }

  /** a cached region is large enough */
  ghost predicate CacheServes(cache: seq<Region>, min: nat) {
    exists s | s in cache :: s.size >= OVERHEAD && min <= s.Usable()
  }

  /** nothing can be had for a block of this size: no class to search, no region as
      large as that, or no cached region and no memory from the kernel */
  ghost predicate CannotGrow(cache: seq<Region>, before: seq<Answer>, after: seq<Answer>, need: nat)
    requires BlockSize(need)
  {
    match MappingSearch(need)
    case None => true
    case Some(k) =>
      || ClassMin(k) > MAX_BLOCK - OVERHEAD
      || (!CacheServes(cache, ClassMin(k)) && Denied(before, after, RegionSize(ClassMin(k))))
  }

  /** why a request may fail: its size is refused, or no free block reaches the class it
      searches and the heap cannot grow */
  ghost predicate Exhausted(c: Cells, listed: set<Addr>, cache: seq<Region>, before: seq<Answer>, after: seq<Answer>,
      size: nat)
  {
    match SizeToBlock(size)
    case None => true
    case Some(need) => NoFit(c, listed, need) && CannotGrow(cache, before, after, need)
  }

  /** why a request got this payload: its block is a good fit, or there was none */
  ghost predicate Chosen(c: Cells, listed: set<Addr>, before: seq<Answer>, after: seq<Answer>, p: Addr, size: nat) {
    match SizeToBlock(size)
    case None => false
    case Some(need) =>
      p >= HEADER && ((after == before && GoodFit(c, listed, p - HEADER, need)) || NoFit(c, listed, need))
  }

  lemma PayloadAligned(b: Addr)
    requires b % ALIGN == 0
    ensures (b + HEADER) % ALIGN == 0
  {
  }

  /** a region with room for min bytes comes from the cache, where it is the smallest
      such, or else from the kernel */
  ghost predicate Supplied(cache0: seq<Region>, cache: seq<Region>, before: seq<Answer>, after: seq<Answer>, min: nat,
      r: Region)
  {
    if CacheServes(cache0, min) then
      && after == before && multiset(cache) + multiset{r} == multiset(cache0) && r.size >= OVERHEAD && min <= r.Usable()
      && forall s | s in cache0 :: s.size >= OVERHEAD && (min <= s.Usable() ==> r.Usable() <= s.Usable())
    else
      var n := RegionSize(min);
      && r.size == n
      && (
        || (after == before + [Given(r)] && cache == cache0)
        || (after == before + [Refused(n), Given(r)] && cache == []))
  }

  /** rs is rs0 without r */
  ghost predicate Without(rs0: seq<Region>, r: Region, rs: seq<Region>) {
    exists k {:trigger rs0[k]} | 0 <= k < |rs0| :: rs0[k] == r && rs == rs0[..k] + rs0[k + 1..]
  }

  /** a region nothing is allocated in any more leaves, into the cache if that has room */
  ghost predicate Retired(rs0: seq<Region>, cache0: seq<Region>, r: Region, rs: seq<Region>, cache: seq<Region>) {
    && Without(rs0, r, rs)
    && cache == if |cache0| < 4 && SumSize(cache0) + r.size <= 4 * 1024 * 1024 then [r] + cache0 else cache0
  }

  /** freeing block b changes no region, or retires the one b was in */
  ghost predicate Shrinks(home0: Homes, b: Addr, rs0: seq<Region>, cache0: seq<Region>, rs: seq<Region>,
      cache: seq<Region>)
  {
    (rs == rs0 && cache == cache0) || (b in home0 && Retired(rs0, cache0, home0[b], rs, cache))
  }

  /** the block of a payload is what a request of this size needs, and too small to be
      cut once more */
  ghost predicate Snug(c: Cells, p: Addr, size: nat) {
    && SizeToBlock(size).Some? && p >= HEADER && IsHeader(c, p - HEADER)
    && SizeToBlock(size).value <= c[p - HEADER].size < SizeToBlock(size).value + MIN_BLOCK
  }

  /** the payload's bytes do not matter */
  lemma SnugWritten(c: Cells, c': Cells, p: Addr, size: nat, n: nat)
    requires Snug(c, p, size) && SameBut(c, c', p, p + n)
    ensures Snug(c', p, size)
  {
    assert SameCell(c, c', p - HEADER);
  }

  lemma SnugUsed(c: Cells, home: Homes, c': Cells, home': Homes, b: Addr, p: Addr, size: nat)
    requires Snug(c, p, size) && UsedSame(c, home, c', home', b) && IsUsed(c, home, p - HEADER) && p - HEADER != b
    ensures Snug(c', p, size)
  {
    assert UsedSameAt(c, home, c', home', p - HEADER);
  }

  class Allocator {
    // memory and the static variables of the allocator
    var cell: Cells
    var heads: Heads
    var slBitmap: seq<nat>
    var flBitmap: nat
    var regions: seq<Region>
    var cache: seq<Region>
    var cacheCount: nat
    var cacheBytes: nat
    // the kernel's view: which regions are mapped
    var mapped: set<Region>

    // physical blocks and their region; blocks on a free list, with the time
    // they were put there; allocations handed out, with the size asked for
    ghost var home: Homes
    ghost var listed: set<Addr>
    ghost var rank: Ranks
    ghost var stamp: nat
    ghost var live: map<Addr, nat>
    // what the kernel has been asked for so far
    ghost var log: seq<Answer>

    ghost predicate Lists()
      reads this
    {
      ListsOk(cell, heads, listed, rank, stamp) && BitsOk(heads, slBitmap, flBitmap)
    }

    /** tlsf_free_insert */
    method FreeInsert(b: Addr)
      requires Lists() && CanInsert(cell, heads, listed, rank, stamp, b)
      requires b + HEADER in cell
      modifies `cell, `heads, `slBitmap, `flBitmap, `listed, `rank, `stamp
      ensures Lists() && listed == old(listed) + {b} && rank == old(rank)[b := old(stamp)] && stamp == old(stamp) + 1
      ensures HeadOk(old(cell), old(heads), old(listed), ClassOf(old(cell)[b].size))
      ensures cell == InsertCells(old(cell), b, old(heads)[ClassOf(old(cell)[b].size)])
      ensures heads == old(heads)[ClassOf(old(cell)[b].size) := b]
    {
      InsertReady(cell, heads, listed, rank, stamp, b);
      InsertLists(cell, heads, listed, rank, stamp, b);
      ClassBounds(cell[b].size);
      var k := MappingInsert(cell[b].size).value;
      SetBits(heads, slBitmap, flBitmap, k, b);

      var h := heads[k];
      cell := cell[b + HEADER := Links(h, 0)];
      if h != 0 {
        cell := cell[h + HEADER := cell[h + HEADER].(prev := b)];
      }
      heads := heads[k := b];
      slBitmap := slBitmap[k.fl := Or(slBitmap[k.fl], Pow2(k.sl))];
      flBitmap := Or(flBitmap, Pow2(k.fl));

      listed, rank, stamp := listed + {b}, rank[b := stamp], stamp + 1;
    }

    /** tlsf_free_remove */
    method FreeRemove(b: Addr)
      requires Lists() && b in listed
      modifies `cell, `heads, `slBitmap, `flBitmap, `listed
      ensures Lists() && listed == old(listed) - {b}
      ensures Unlinkable(old(cell), b)
      ensures cell == RemoveCells(old(cell), b) && heads == RemoveHeads(old(cell), old(heads), b)
    {
      RemoveReady(cell, heads, listed, rank, stamp, b);
      RemoveLists(cell, heads, listed, rank, stamp, b);
      ListedHead(cell, heads, listed, rank, stamp, b);
      ClassBounds(cell[b].size);
      var k := MappingInsert(cell[b].size).value;
      var l := cell[b + HEADER];
      if l.prev == 0 {
        if l.next == 0 {
          ClearBits(heads, slBitmap, flBitmap, k);
        } else {
          KeepBits(heads, slBitmap, flBitmap, k, l.next);
        }
      }

      if l.prev != 0 {
        cell := cell[l.prev + HEADER := cell[l.prev + HEADER].(next := l.next)];
      } else {
        heads := heads[k := l.next];
      }
      if l.next != 0 {
        cell := cell[l.next + HEADER := cell[l.next + HEADER].(prev := l.prev)];
      }
      if heads[k] == 0 {
        var sl := ClearSl(slBitmap, k);
        flBitmap := ClearFl(slBitmap, flBitmap, k);
        slBitmap := sl;
      }
      listed := listed - {b};
    }

    /** tlsf_find: the smallest non-empty class at or above the searched one */
    method Find(size: nat) returns (b: Option<Addr>)
      requires Lists() && BlockSize(size)
      ensures b.Some? ==> b.value in listed && IsHeader(cell, b.value) && cell[b.value].size >= size
      ensures b.Some? ==> GoodFit(cell, listed, b.value, size)
      ensures b.None? && MappingSearch(size).Some? ==>
                (forall a | a in listed :: IsHeader(cell, a) && cell[a].size < ClassMin(MappingSearch(size).value))
    {
      SearchBounds(size);
      if flBitmap == 0 {
        NoneListed(cell, heads, listed, rank, stamp, slBitmap);
        return None;
      }
      var m := MappingSearch(size);
      if m.None? { return None; }
      var k := m.value;
      var j: Class;

      var slMap := And(slBitmap[k.fl], MaskFrom(k.sl));
      MaskedBit(slBitmap[k.fl], k.sl, 0);
      if slMap == 0 {
        var flMap := And(flBitmap, MaskFrom(k.fl + 1));
        MaskedBit(flBitmap, k.fl + 1, 0);
        if flMap == 0 {
          forall a | a in listed ensures IsHeader(cell, a) && cell[a].size < ClassMin(k) {
            NoneAbove(cell, heads, listed, rank, stamp, slBitmap, flBitmap, k, a);
          }
          return None;
        }
        var fl := Ctz64(flMap);
        MaskedBit(flBitmap, k.fl + 1, fl);
        FirstLevelBit(slBitmap, flBitmap, fl);
        var sl := Ctz64(slBitmap[fl]);
        SecondLevelBit(slBitmap, fl, sl);
        j := Class(fl, sl);
        forall i | k.sl <= i < SL_COUNT ensures !Bit(slBitmap[k.fl], i) {
          MaskedBit(slBitmap[k.fl], k.sl, i);
          BitZero(i);
        }
        forall f | k.fl < f < fl ensures !Bit(flBitmap, f) { MaskedBit(flBitmap, k.fl + 1, f); }
      } else {
        var sl := Ctz64(slMap);
        MaskedBit(slBitmap[k.fl], k.sl, sl);
        SecondLevelBit(slBitmap, k.fl, sl);
        j := Class(k.fl, sl);
        forall i | k.sl <= i < sl ensures !Bit(slBitmap[k.fl], i) { MaskedBit(slBitmap[k.fl], k.sl, i); }
      }
      forall a | a in listed
        ensures IsHeader(cell, a) && (cell[a].size >= ClassMin(k) ==> cell[a].size >= ClassMin(j))
      {
        NoneBetween(cell, heads, listed, rank, stamp, slBitmap, flBitmap, k, j, a);
      }
      HeadFits(cell, heads, listed, rank, stamp, slBitmap, flBitmap, j, k);
      b := Some(heads[j]);
    }

    /** the heap is in order, apart from blocks in ex that are free but
        unlisted and blocks in gap that may have a free right neighbour */
    ghost predicate InOrder(ex: set<Addr>, gap: set<Addr>)
      reads this
    {
      Consistent(cell, home, heads, listed, rank, stamp, ex, gap) && BitsOk(heads, slBitmap, flBitmap)
    }

    /** listing a free block that awaits it keeps the heap in order */
    method Enlist(b: Addr, ghost ex: set<Addr>)
      requires InOrder(ex, {}) && b in ex && IsFree(cell, home, b) && NextUsed(cell, b) && b + HEADER in cell
      modifies `cell, `heads, `slBitmap, `flBitmap, `listed, `rank, `stamp
      ensures InOrder(ex - {b}, {}) && listed == old(listed) + {b} && cell.Keys == old(cell).Keys
      ensures UsedSame(old(cell), home, cell, home, 0)
      ensures forall a | a in home :: a in old(cell) && a in cell && cell[a] == old(cell)[a]
    {
      InsertStage(cell, home, heads, listed, rank, stamp, ex, {}, b);
      FreeInsert(b);
    }

    /** taking a block off its list leaves it awaiting attention */
    method Delist(b: Addr, ghost ex: set<Addr>)
      requires InOrder(ex, {}) && b in listed
      modifies `cell, `heads, `slBitmap, `flBitmap, `listed
      ensures InOrder(ex + {b}, {}) && listed == old(listed) - {b} && cell.Keys == old(cell).Keys
      ensures IsFree(cell, home, b) && UsedSame(old(cell), home, cell, home, 0)
      ensures forall a | a in home :: a in old(cell) && a in cell && cell[a] == old(cell)[a]
    {
      RemoveStage(cell, home, heads, listed, rank, stamp, ex, {}, b);
      FreeRemove(b);
    }

    /** the first half of tlsf_split: write the three headers */
    method Cut(b: Addr, need: nat) returns (tail: Addr, next: Addr)
      requires InOrder({b}, {}) && Covered(home, regions) && Proper(home, b) && Backed(cell, home[b])
      requires IsHeader(cell, b) && MIN_BLOCK <= need && need + MIN_BLOCK <= cell[b].size && need % ALIGN == 0
      modifies `cell, `home
      ensures tail == b + need && next == b + old(cell)[b].size && tail + HEADER in cell && next in home && next != b
      ensures InOrder({b} + {tail}, {}) && Covered(home, regions) && Proper(home, b) && home[b] == old(home)[b]
      ensures cell.Keys == old(cell).Keys
      ensures IsHeader(cell, b) && cell[b].used == old(cell)[b].used && cell[b].size == need
      ensures IsFree(cell, home, tail) && next == tail + cell[tail].size && IsHeader(cell, next)
      ensures UsedSame(old(cell), old(home), cell, home, b) && SameRange(old(cell), cell, b + HEADER, b + need)
    {
      ProperSize(cell, home, b);
      ghost var c0 := cell;
      SplitStage(cell, home, heads, listed, rank, stamp, {b}, {}, b, need);
      var rest := cell[b].size - need;
      tail := b + need;
      next := tail + rest;
      assert tail in cell && tail + HEADER in cell;
      assert HomeIn(home, regions, b);
      CoveredAdd(home, regions, tail, home[b]);
      cell := cell[b := cell[b].(size := need)];
      cell := cell[tail := Header(rest, false, need)];
      cell := cell[next := cell[next].(prevSize := rest)];
      home := home[tail := home[b]];
      assert cell == SplitCells(c0, b, need);
    }

    /** tlsf_split: cut the tail off a block and list it, joined with a free
        right neighbour */
    method Split(b: Addr, need: nat)
      requires InOrder({b}, {}) && Covered(home, regions) && Proper(home, b) && Backed(cell, home[b])
      requires IsHeader(cell, b) && MIN_BLOCK <= need <= cell[b].size && need % ALIGN == 0
      modifies `cell, `heads, `slBitmap, `flBitmap, `listed, `rank, `stamp, `home
      ensures InOrder({b}, {}) && Covered(home, regions) && Proper(home, b) && home[b] == old(home)[b]
      ensures cell.Keys == old(cell).Keys
      ensures IsHeader(cell, b) && cell[b].used == old(cell)[b].used
      ensures cell[b].size == if old(cell)[b].size < need + MIN_BLOCK then old(cell)[b].size else need
      ensures UsedSame(old(cell), old(home), cell, home, b)
      ensures old(cell)[b].used ==> SameRange(old(cell), cell, b + HEADER, b + cell[b].size)
    {
      UsedSameRefl(cell, home, b);
      if cell[b].size < need + MIN_BLOCK { return; }
      ghost var c0, home0 := cell, home;
      var tail, next := Cut(b, need);
      ghost var c1, home1 := cell, home;
      if !cell[next].used {
        JoinTail(tail, next, {b});
        assert Kept(c1, cell, b);
      } else {
        UsedSameRefl(cell, home, tail);
      }
      ghost var c2, home2 := cell, home;
      Enlist(tail, {b} + {tail});
      assert {b} + {tail} - {tail} == {b};
      ZeroNotUsed(c2, home2);
      SplitEffect(c0, home0, c1, home1, c2, home2, cell, b, tail);
      if c1[b].used { SameRangeTrans(c0, c1, cell, b + HEADER, b + need); }
    }

    /** the coalescing branch of tlsf_split */
    method JoinTail(tail: Addr, next: Addr, ghost ex: set<Addr>)
      requires InOrder(ex + {tail}, {}) && Covered(home, regions) && tail !in ex
      requires IsFree(cell, home, tail) && next == tail + cell[tail].size && next in home && IsHeader(cell, next)
      requires !cell[next].used
      requires next !in ex
      modifies `cell, `heads, `slBitmap, `flBitmap, `listed, `home
      ensures InOrder(ex + {tail}, {}) && Covered(home, regions) && cell.Keys == old(cell).Keys
      ensures IsFree(cell, home, tail) && NextUsed(cell, tail) && home == old(home) - {next}
      ensures UsedSame(old(cell), old(home), cell, home, tail)
      ensures forall a {:trigger Kept(old(cell), cell, a)} | a in home && a != tail :: Kept(old(cell), cell, a)
    {
      ghost var c0, home0 := cell, home;
      FreeIsProper(cell, home, next);
      assert ListedAt(cell, home, listed, ex + {tail}, next);
      assert NextUsed(cell, next);
      ProperSize(cell, home, next);
      Delist(next, ex + {tail});
      ghost var c1 := cell;
      ZeroNotUsed(c0, home0);
      UsedSameShift(c0, home, c1, home, 0, tail);
      MergeStage(cell, home, heads, listed, rank, stamp, ex + {tail} + {next}, {}, tail);
      CoveredRemove(home, regions, next);

      cell := cell[tail := cell[tail].(size := cell[tail].size + cell[next].size)];
      var after := next + cell[next].size;
      cell := cell[after := cell[after].(prevSize := cell[tail].size)];
      home := home - {next};
      assert cell == MergeCells(c1, tail);
      assert ex + {tail} + {next} - {next} == ex + {tail};
      forall a {:trigger Kept(c0, cell, a)} | a in home && a != tail ensures Kept(c0, cell, a) {
        BlockInRegion(c1, home0, a);
        BlockInRegion(c0, home0, a);
      }
      UsedSameTrans(c0, home0, c1, home0, cell, home, tail);
    }

    // ----- tlsf_free_block -----

    /** join b with its free right neighbour; the tag behind them is written
        later, e is the memory once it will be */
    method AbsorbRight(b: Addr, n: Addr, ghost gap: set<Addr>) returns (ghost e: Cells)
      requires InOrder({b}, gap) && Covered(home, regions) && IsFree(cell, home, b)
      requires n == b + cell[b].size && n in home && IsHeader(cell, n) && !cell[n].used && n !in gap
      modifies `cell, `heads, `slBitmap, `flBitmap, `listed, `home
      ensures IsHeader(cell, b) && Lag(cell, e, b + cell[b].size) && cell[b].prevSize == old(cell)[b].prevSize
      ensures Consistent(e, home, heads, listed, rank, stamp, {b}, gap) && BitsOk(heads, slBitmap, flBitmap)
      ensures Covered(home, regions) && cell.Keys == old(cell).Keys && home == old(home) - {n}
      ensures IsFree(e, home, b) && NextUsed(e, b)
      ensures UsedSame(old(cell), old(home), e, home, b)
    {
      ghost var c0, home0 := cell, home;
      FreeIsProper(cell, home, n);
      assert ListedAt(cell, home, listed, {b}, n);
      assert NextUsed(cell, n);
      ProperSize(cell, home, n);
      RemoveStage(cell, home, heads, listed, rank, stamp, {b}, gap, n);
      FreeRemove(n);
      ghost var c1 := cell;
      ZeroNotUsed(c0, home0);
      UsedSameShift(c0, home0, c1, home0, 0, b);
      MergeStage(cell, home, heads, listed, rank, stamp, {b} + {n}, gap, b);
      CoveredRemove(home, regions, n);
      LagMerge(c1, c1, home, b);
      e := MergeCells(c1, b);
      cell := cell[b := cell[b].(size := cell[b].size + cell[n].size)];
      home := home - {n};
      assert {b} + {n} - {n} == {b};
      UsedSameTrans(c0, home0, c1, home0, e, home, b);
    }

    /** join the free left neighbour p with b */
    method AbsorbLeft(b: Addr, p: Addr, ghost e: Cells) returns (ghost e': Cells)
      requires IsHeader(cell, b) && Lag(cell, e, b + cell[b].size) && b + cell[b].size in home
      requires Consistent(e, home, heads, listed, rank, stamp, {b}, {p}) && BitsOk(heads, slBitmap, flBitmap)
      requires Covered(home, regions) && IsFree(e, home, b) && NextUsed(e, b)
      requires p in home && IsHeader(e, p) && !e[p].used && p + e[p].size == b
      modifies `cell, `heads, `slBitmap, `flBitmap, `listed, `home
      ensures IsHeader(cell, p) && Lag(cell, e', p + cell[p].size)
      ensures Consistent(e', home, heads, listed, rank, stamp, {p}, {p}) && BitsOk(heads, slBitmap, flBitmap)
      ensures Covered(home, regions) && cell.Keys == old(cell).Keys && home == old(home) - {b}
      ensures IsFree(e', home, p) && NextUsed(e', p)
      ensures UsedSame(e, old(home), e', home, p)
    {
      ghost var x := b + cell[b].size;
      LeftStage(cell, e, home, heads, listed, rank, stamp, b, p, x);
      FreeRemove(p);
      e' := MergeCells(RemoveCells(e, p), p);
      CoveredRemove(home, regions, b);
      cell := cell[p := cell[p].(size := cell[p].size + cell[b].size)];
      home := home - {b};
    }

    /** mark b free and join it with its right neighbour */
    method FreeRight(b: Addr) returns (ghost e: Cells)
      requires InOrder({}, {}) && Covered(home, regions) && IsUsed(cell, home, b)
      modifies `cell, `heads, `slBitmap, `flBitmap, `listed, `home
      ensures IsHeader(cell, b) && Lag(cell, e, b + cell[b].size) && old(cell)[b].prevSize == cell[b].prevSize <= b
      ensures Consistent(e, home, heads, listed, rank, stamp, {b}, {b - cell[b].prevSize})
      ensures BitsOk(heads, slBitmap, flBitmap)
      ensures Covered(home, regions) && cell.Keys == old(cell).Keys
      ensures IsFree(e, home, b) && NextUsed(e, b) && home[b] == old(home)[b]
      ensures UsedSame(old(cell), old(home), e, home, b)
    {
      ghost var c0, home0 := cell, home;
      ProperSize(cell, home, b);
      FreeStage(cell, home, heads, listed, rank, stamp, b);
      cell := cell[b := cell[b].(used := false)];
      assert cell == Retag(c0, b, false);
      e := cell;
      var n := b + cell[b].size;
      if !cell[n].used {
        ghost var c1 := cell;
        e := AbsorbRight(b, n, {b - cell[b].prevSize});
        UsedSameTrans(c0, home0, c1, home0, e, home, b);
      }
    }

    /** tlsf_free_block up to the point where the joined block is complete */
    method Coalesce(b: Addr) returns (blk: Addr)
      requires InOrder({}, {}) && Covered(home, regions) && IsUsed(cell, home, b)
      modifies `cell, `heads, `slBitmap, `flBitmap, `listed, `home
      ensures InOrder({blk}, {}) && Covered(home, regions) && cell.Keys == old(cell).Keys
      ensures IsFree(cell, home, blk) && NextUsed(cell, blk) && home[blk] == old(home)[b]
      ensures UsedSame(old(cell), old(home), cell, home, b) && !IsUsed(cell, home, b)
    {
      ghost var e := FreeRight(b);
      ProperSize(e, home, b);
      var p := b - cell[b].prevSize;
      blk := b;
      LagAt(cell, e, b + cell[b].size, p);
      if !cell[p].used {
        ghost var e0, home0 := e, home;
        e := AbsorbLeft(b, p, e0);
        blk := p;
        UsedSameShift(e0, home0, e, home, p, b);
        UsedSameTrans(old(cell), old(home), e0, home0, e, home, b);
      }
      DropGap(e, home, heads, listed, rank, stamp, {blk}, p);
      ProperSize(e, home, blk);
      var next := blk + cell[blk].size;
      cell := cell[next := cell[next].(prevSize := cell[blk].size)];
      assert cell == e;
    }

    // ----- regions -----

    /** every mapped region is active, cached or in `extra`, exactly once; its
        memory is addressable; the cache counters are right and bounded */
    ghost predicate Kernel(extra: multiset<Region>)
      reads this
    {
      && Accounted(regions, cache, extra, mapped) && Usable(cell, mapped) && AllApart(mapped)
      && cacheCount == |cache| <= CACHE_MAX
      && cacheBytes == SumSize(cache) <= CACHE_BYTES
    }

    ghost predicate Base()
      reads this
    {
      InOrder({}, {}) && Covered(home, regions) && Kernel(multiset{})
    }

    method Munmap(r: Region)
      modifies `cell, `mapped
      ensures cell == Unmap(old(cell), r) && mapped == old(mapped) - {r}
    {
      cell := Unmap(cell, r);
      mapped := mapped - {r};
    }

    /** tlsf_region_find */
    method RegionFind(ptr: Addr) returns (r: Option<Region>)
      ensures r.Some? ==> r.value in regions && InRegion(r.value, ptr)
      ensures r.None? ==> forall s | s in regions :: !InRegion(s, ptr)
    {
      var i := 0;
      while i < |regions|
        invariant i <= |regions| && forall j | 0 <= j < i :: !InRegion(regions[j], ptr)
      {
        if regions[i].base <= ptr < regions[i].base + regions[i].size { return Some(regions[i]); }
        i := i + 1;
      }
      r := None;
    }

    /** tlsf_region_remove */
    method RegionRemove(r: Region) returns (ghost k: nat)
      modifies `regions
      ensures r !in old(regions) ==> regions == old(regions)
      ensures r in old(regions) ==>
        k < |old(regions)| && old(regions)[k] == r && regions == old(regions)[..k] + old(regions)[k + 1..]
    {
      var i := 0;
      while i < |regions| && regions[i] != r
        invariant i <= |regions| && r !in regions[..i]
      {
        i := i + 1;
      }
      k := i;
      if i < |regions| {
        regions := regions[..i] + regions[i + 1..];
      }
    }

    /** giving a spare region back to the kernel disturbs nothing */
    method ReturnRegion(r: Region)
      requires InOrder({}, {}) && Covered(home, regions) && Kernel(multiset{r})
      modifies `cell, `mapped
      ensures Base() && UsedSame(old(cell), home, cell, home, 0) && mapped == old(mapped) - {r}
    {
      UnmapSpare(cell, home, heads, listed, rank, stamp, regions, cache, mapped, r);
      Munmap(r);
    }

    /** tlsf_region_put_cache */
    method PutCache(r: Region)
      requires InOrder({}, {}) && Covered(home, regions) && Kernel(multiset{r})
      modifies `cell, `mapped, `cache, `cacheCount, `cacheBytes
      ensures Base() && UsedSame(old(cell), home, cell, home, 0)
      ensures if |old(cache)| < CACHE_MAX && SumSize(old(cache)) + r.size <= CACHE_BYTES
              then cache == [r] + old(cache) && mapped == old(mapped)
              else cache == old(cache) && mapped == old(mapped) - {r}
    {
      UsedSameRefl(cell, home, 0);
      if cacheCount >= CACHE_MAX || r.size > CACHE_BYTES - cacheBytes {
        ReturnRegion(r);
        return;
      }
      assert multiset([r] + cache) == multiset{r} + multiset(cache);
      cache := [r] + cache;
      cacheCount := cacheCount + 1;
      cacheBytes := cacheBytes + r.size;
    }

    /** the end of tlsf_free_block when the whole region is free */
    method Retire(r: Region)
      requires r in regions && r.size >= OVERHEAD && r.First() in home && home[r.First()] == r
      requires InOrder({r.First()}, {}) && Covered(home, regions) && Kernel(multiset{})
      requires IsFree(cell, home, r.First()) && cell[r.First()].size == r.Usable()
      modifies `cell, `home, `regions, `cache, `cacheCount, `cacheBytes, `mapped
      ensures Base() && UsedSame(old(cell), old(home), cell, home, 0)
      ensures forall s | s in regions :: s in old(regions) && s != r
      ensures Retired(old(regions), old(cache), r, regions, cache)
    {
      ghost var c0, home0, regions0 := cell, home, regions;
      DropStage(cell, home, heads, listed, rank, stamp, r);
      InOne(regions, cache, multiset{}, mapped, r);
      ghost var k := RegionRemove(r);
      RemoveAt(regions0, k);
      CoveredDrop(home, regions0, k, cache, mapped);
      home := DropRegion(home, r);
      InOne(regions, cache, multiset{r}, mapped, r);
      forall s | s in regions ensures s in regions0 && s != r {}
      PutCache(r);
      UsedSameTrans(c0, home0, c0, home, cell, home, 0);
    }

    /** tlsf_free_block: free a block, and its region if nothing else is in it */
    method FreeBlock(b: Addr)
      requires Base() && AllBusy(cell, home, regions) && IsUsed(cell, home, b)
      modifies `cell, `heads, `slBitmap, `flBitmap, `listed, `rank, `stamp, `home, `regions, `cache, `cacheCount,
          `cacheBytes, `mapped
      ensures Base() && AllBusy(cell, home, regions)
      ensures UsedSame(old(cell), old(home), cell, home, b) && !IsUsed(cell, home, b)
      ensures Shrinks(old(home), b, old(regions), old(cache), regions, cache)
    {
      ghost var c0, home0, regions0 := cell, home, regions;
      var blk := Coalesce(b);
      ghost var c1, home1 := cell, home;
      UsableKeys(c0, c1, mapped);
      ZeroNotUsed(c1, home1);
      var region := RegionFind(blk);
      FoundRegion(cell, home, regions, cache, mapped, blk, region);
      if region.Some? && blk == region.value.First() && cell[blk].size == region.value.Usable() {
        Retire(region.value);
      } else {
        Relist(blk);
      }
      FreeEffect(c0, home0, c1, home1, cell, home, b);
      OthersBusy(c0, home0, cell, home, regions0, regions, b);
    }

    /** the end of tlsf_free_block when the region is still needed */
    method Relist(b: Addr)
      requires InOrder({b}, {}) && Covered(home, regions) && Kernel(multiset{})
      requires IsFree(cell, home, b) && NextUsed(cell, b)
      requires !(b == home[b].First() && cell[b].size == home[b].Usable())
      modifies `cell, `heads, `slBitmap, `flBitmap, `listed, `rank, `stamp
      ensures Base() && Busy(cell, home, home[b]) && UsedSame(old(cell), home, cell, home, 0)
    {
      ghost var c1 := cell;
      BlockBacked(cell, home, regions, cache, mapped, b);
      Enlist(b, {b});
      assert {b} - {b} == {};
      UsableKeys(c1, cell, mapped);
      PrevIsUsed(cell, home, b);
      StillBusy(cell, home, b);
    }

    /** a region just mapped, whose alignment is still unchecked */
    ghost predicate Unchecked(r: Region)
      reads this
    {
      && InOrder({}, {}) && Covered(home, regions)
      && Accounted(regions, cache, multiset{r}, mapped) && Usable(cell, mapped - {r}) && AllApart(mapped)
      && Backed(cell, r) && r.base > 0
      && cacheCount == |cache| <= CACHE_MAX && cacheBytes == SumSize(cache) <= CACHE_BYTES
    }

    /** addresses apart from everything mapped */
    predicate FreshRange(base: Addr, size: nat)
      reads this
    {
      && Region(base, size) !in mapped
      && forall s | s in mapped :: base + size <= s.base || s.base + s.size <= base
    }

    /** zeroed memory at an address of the kernel's choice */
    method MapAt(base: Addr, size: nat)
      requires Base() && size > 0 && 0 < base < WORD_MAX && FreshRange(base, size)
      modifies `cell, `mapped
      ensures Unchecked(Region(base, size))
      ensures UsedSame(old(cell), home, cell, home, 0) && AllKept(old(cell), cell, home)
    {
      var grown := cell + map g: Addr | base <= g < base + size && g % ALIGN == 0 :: Data(seq(ALIGN, _ => 0));
      var r := Region(base, size);
      NewMapping(cell, grown, home, heads, listed, rank, stamp, regions, cache, mapped, r);
      assert mapped + {r} - {r} == mapped;
      cell := grown;
      mapped := mapped + {r};
    }

    /** mmap: refuse, or hand out zeroed memory apart from all other regions */
    method Mmap(size: nat) returns (r: Option<Region>)
      requires Base() && size > 0
      modifies `cell, `mapped, `log
      ensures log == old(log) + [if r.None? then Refused(size) else Given(r.value)]
      ensures r.None? ==> cell == old(cell) && mapped == old(mapped)
      ensures r.Some? ==> r.value.size == size && Unchecked(r.value)
      ensures UsedSame(old(cell), home, cell, home, 0) && AllKept(old(cell), cell, home)
    {
      UsedSameRefl(cell, home, 0);
      AllKeptRefl(cell, home);
      r := None;
      if * {
        if base: Addr :| 0 < base < WORD_MAX && FreshRange(base, size) {
          MapAt(base, size);
          r := Some(Region(base, size));
        }
      }
      log := log + [if r.None? then Refused(size) else Given(r.value)];
    }

    /** tlsf_region_cache_flush */
    method CacheFlush()
      requires Base()
      modifies `cell, `mapped, `cache, `cacheCount, `cacheBytes
      ensures Base() && UsedSame(old(cell), home, cell, home, 0) && AllKept(old(cell), cell, home) && cache == []
    {
      UsedSameRefl(cell, home, 0);
      AllKeptRefl(cell, home);
      while cache != []
        invariant InOrder({}, {}) && Covered(home, regions)
        invariant Accounted(regions, cache, multiset{}, mapped) && Usable(cell, mapped) && AllApart(mapped)
        invariant UsedSame(old(cell), home, cell, home, 0) && AllKept(old(cell), cell, home)
        decreases |cache|
      {
        var r := cache[0];
        ghost var c0 := cell;
        assert multiset(cache) == multiset{r} + multiset(cache[1..]) by { assert cache == [r] + cache[1..]; }
        cache := cache[1..];
        UnmapSpare(cell, home, heads, listed, rank, stamp, regions, cache, mapped, r);
        Munmap(r);
        UsedSameTrans(old(cell), home, c0, home, cell, home, 0);
        AllKeptTrans(old(cell), c0, cell, home);
      }
      cacheCount := 0;
      cacheBytes := 0;
    }

    /** tlsf_region_take_cache: the smallest cached region that is large enough */
    method TakeCache(minUsable: nat) returns (r: Option<Region>)
      requires Kernel(multiset{})
      modifies `cache, `cacheCount, `cacheBytes
      ensures r.None? ==>
        cache == old(cache) && Kernel(multiset{}) && forall s | s in cache :: s.Shaped() && s.Usable() < minUsable
      ensures r.Some? ==>
        Kernel(multiset{r.value}) && r.value in old(cache) && r.value.Shaped() && minUsable <= r.value.Usable()
      ensures r.Some? ==>
        forall s | s in old(cache) :: s.Shaped() && (minUsable <= s.Usable() ==> r.value.Usable() <= s.Usable())
      ensures r.Some? ==> multiset(cache) + multiset{r.value} == multiset(old(cache))
    {
      forall s | s in cache ensures s.Shaped() {
        InOne(regions, cache, multiset{}, mapped, s);
      }
      var best := BestFit(cache, minUsable);
      if best.None? { return None; }
      var k := best.value;
      r := Some(cache[k]);
      CacheTaken(regions, cache, mapped, k);
      cache := cache[..k] + cache[k + 1..];
      cacheCount := cacheCount - 1;
      cacheBytes := cacheBytes - r.value.size;
    }

    /** the header writes of tlsf_region_activate */
    method StampRegion(r: Region)
      requires InOrder({}, {}) && Covered(home, regions) && Kernel(multiset{r})
      modifies `cell, `home, `regions
      ensures r.Shaped() && InOrder({r.First()}, {}) && Covered(home, regions)
      ensures Accounted(regions, cache, multiset{}, mapped)
      ensures regions == [r] + old(regions) && home == ActivateHomes(old(home), r)
      ensures cell == ActivateCells(old(cell), r)
      ensures cell.Keys == old(cell).Keys && r.First() + HEADER in cell
      ensures IsFree(cell, home, r.First()) && NextUsed(cell, r.First())
      ensures UsedSame(old(cell), old(home), cell, home, 0)
      ensures forall a {:trigger a in old(home)} | a in old(home) ::
        a in home && IsHeader(old(cell), a) && a in cell && cell[a] == old(cell)[a]
    {
      ActivateSpare(cell, home, heads, listed, rank, stamp, regions, cache, mapped, r);
      cell := cell[r.Start() := Header(HEADER, true, 0)];
      cell := cell[r.First() := Header(r.Usable(), false, HEADER)];
      cell := cell[r.End() := Header(HEADER, true, r.Usable())];
      regions := [r] + regions;
      home := ActivateHomes(home, r);
    }

    /** tlsf_region_activate */
    method Activate(r: Region)
      requires InOrder({}, {}) && Covered(home, regions) && Kernel(multiset{r})
      modifies `cell, `heads, `slBitmap, `flBitmap, `listed, `rank, `stamp, `home, `regions
      ensures Base() && UsedSame(old(cell), old(home), cell, home, 0) && regions == [r] + old(regions)
      ensures r.Shaped() && listed == old(listed) + {r.First()} && r.First() in home && home[r.First()] == r
      ensures IsHeader(cell, r.First()) && cell[r.First()].size == r.Usable()
      ensures forall a {:trigger Kept(old(cell), cell, a)} | a in old(home) :: Kept(old(cell), cell, a)
    {
      StampRegion(r);
      ghost var c1 := cell;
      assert r.First() in home;
      Enlist(r.First(), {r.First()});
      assert {r.First()} - {r.First()} == {};
      UsableKeys(old(cell), cell, mapped);
      UsedSameTrans(old(cell), old(home), c1, home, cell, home, 0);
    }

    /** the part of tlsf_grow that asks the kernel, twice if need be */
    method MapRegion(size: nat) returns (r: Option<Region>)
      requires Base() && size % PAGE == 0 && OVERHEAD + MIN_BLOCK <= size <= MAX_BLOCK
      modifies `cell, `mapped, `cache, `cacheCount, `cacheBytes, `log
      ensures UsedSame(old(cell), home, cell, home, 0) && AllKept(old(cell), cell, home)
      ensures old(log) <= log && (r.None? ==> Base() && Denied(old(log), log, size))
      ensures r.Some? ==> r.value.size == size && InOrder({}, {}) && Covered(home, regions) && Kernel(multiset{r.value})
      ensures r.Some? ==>
        || (log == old(log) + [Given(r.value)] && cache == old(cache))
        || (log == old(log) + [Refused(size), Given(r.value)] && cache == [])
    {
      r := Mmap(size);
      if r.None? {
        CacheFlush();
        ghost var c1 := cell;
        r := Mmap(size);
        UsedSameTrans(old(cell), home, c1, home, cell, home, 0);
        AllKeptTrans(old(cell), c1, cell, home);
      }
      if r.Some? && r.value.base % ALIGN != 0 {
        UnmapSpare(cell, home, heads, listed, rank, stamp, regions, cache, mapped, r.value);
        ghost var c1 := cell;
        Munmap(r.value);
        UsedSameTrans(old(cell), home, c1, home, cell, home, 0);
        AllKeptTrans(old(cell), c1, cell, home);
        r := None;
      }
      if r.Some? { UsableAdd(cell, mapped, r.value); }
    }

    /** the part of tlsf_grow that finds memory for a region: the cache, else the kernel */
    method Supply(min: nat) returns (r: Option<Region>)
      requires Base() && MIN_BLOCK <= min <= MAX_BLOCK - OVERHEAD
      modifies `cell, `mapped, `cache, `cacheCount, `cacheBytes, `log
      ensures UsedSame(old(cell), home, cell, home, 0) && AllKept(old(cell), cell, home)
      ensures old(log) <= log
      ensures r.None? ==> Base() && !CacheServes(old(cache), min) && Denied(old(log), log, RegionSize(min))
      ensures r.Some? ==>
        InOrder({}, {}) && Covered(home, regions) && Kernel(multiset{r.value}) && r.value.size >= OVERHEAD + min
      ensures r.Some? ==> Supplied(old(cache), cache, old(log), log, min, r.value)
    {
      UsedSameRefl(cell, home, 0);
      AllKeptRefl(cell, home);
      r := TakeCache(min);
      if r.Some? { return; }
      var want := if min + OVERHEAD < REGION_MIN then REGION_MIN else min + OVERHEAD;
      var size := (want + PAGE - 1) / PAGE * PAGE;
      RegionSizeLeast(min);
      r := MapRegion(size);
    }

    /** tlsf_grow */
    method Grow(minSize: nat) returns (ok: bool, ghost r: Region)
      requires Base() && BlockSize(minSize)
      modifies `cell, `heads, `slBitmap, `flBitmap, `listed, `rank, `stamp, `home, `regions, `cache, `cacheCount,
          `cacheBytes, `mapped, `log
      ensures Base() && UsedSame(old(cell), old(home), cell, home, 0)
      ensures old(log) <= log
      ensures !ok ==> regions == old(regions) && CannotGrow(old(cache), old(log), log, minSize)
      ensures ok ==> MappingSearch(minSize).Some?
      ensures ok ==> Supplied(old(cache), cache, old(log), log, ClassMin(MappingSearch(minSize).value), r)
      ensures ok ==> MappingSearch(minSize).Some? && r.Shaped() && ClassMin(MappingSearch(minSize).value) <= r.Usable()
      ensures ok ==>
        regions == [r] + old(regions) && listed == old(listed) + {r.First()} && r.First() in home &&
          home[r.First()] == r
      ensures ok ==>
        IsHeader(cell, r.First()) && cell[r.First()].size == r.Usable() && AllKept(old(cell), cell, old(home))
    {
      UsedSameRefl(cell, home, 0);
      ok, r := false, Region(0, 0);
      SearchBounds(minSize);
      var m := MappingSearch(minSize);
      if m.None? { return; }
      var classMin := ClassMin(m.value);
      if classMin < minSize || classMin > MAX_BLOCK - OVERHEAD { return; }
      var region := Supply(classMin);
      if region.None? { return; }
      ghost var c1, home1 := cell, home;
      r := region.value;
      Activate(region.value);
      ok := true;
      UsedSameTrans(old(cell), old(home), c1, home1, cell, home, 0);
      AllKeptTrans(old(cell), c1, cell, home1);
    }

    /** every active region except possibly the one of b holds an allocation */
    ghost predicate BusyBut(b: Addr)
      reads this
    {
      b in home && forall r {:trigger Busy(cell, home, r)} | r in regions && r != home[b] :: Busy(cell, home, r)
    }

    /** find, or grow and find again: after growing, the search succeeds */
    method Obtain(need: nat) returns (b: Option<Addr>, grown: bool)
      requires Base() && AllBusy(cell, home, regions) && BlockSize(need)
      modifies `cell, `heads, `slBitmap, `flBitmap, `listed, `rank, `stamp, `home, `regions, `cache, `cacheCount,
          `cacheBytes, `mapped, `log
      ensures Base() && UsedSame(old(cell), old(home), cell, home, 0)
      ensures grown ==> b.Some?
      ensures old(log) <= log
      ensures b.Some? ==>
        if grown then NoFit(old(cell), old(listed), need)
        else log == old(log) && GoodFit(old(cell), old(listed), b.value, need)
      ensures b.None? ==> AllBusy(cell, home, regions) && NoFit(old(cell), old(listed), need)
      ensures b.None? ==> CannotGrow(old(cache), old(log), log, need)
      ensures b.Some? ==> b.value in listed && IsHeader(cell, b.value) && cell[b.value].size >= need && BusyBut(b.value)
    {
      UsedSameRefl(cell, home, 0);
      grown := false;
      b := Find(need);
      if b.Some? {
        ListedProper(cell, home, listed, {});
        assert Proper(home, b.value);
        return;
      }
      ghost var c0, home0, listed0 := cell, home, listed;
      ZeroNotUsed(cell, home);
      ListedProper(cell, home, listed, {});
      ghost var r;
      grown, r := Grow(need);
      forall s {:trigger Busy(cell, home, s)} | s in regions && s in old(regions) ensures Busy(cell, home, s) {
        assert Busy(c0, home0, s);
        BusyKept(c0, home0, cell, home, s);
      }
      if grown {
        b := Find(need);
        SearchBounds(need);
        FreshBlockFound(c0, home0, cell, listed0, listed, need, r, b);
      }
    }

    // ----- the public interface -----

    /** the invariant of the allocator between calls */
    ghost predicate Valid()
      reads this
    {
      Base() && AllBusy(cell, home, regions) && LiveOk(cell, home, live)
    }

    /** no region, no memory, all lists empty */
    constructor ()
      ensures Valid() && live == map[] && mapped == {} && log == []
    {
      cell, regions, cache, cacheCount, cacheBytes, mapped := map[], [], [], 0, 0, {};
      heads := map k | k in AllClasses() :: 0;
      slBitmap, flBitmap := seq(FL_COUNT, _ => 0), 0;
      home, listed, rank, stamp, live, log := map[], {}, map[], 0, map[], [];
      new;
      forall k: Class {:trigger HeadOk(cell, heads, listed, k)} | k.Valid() ensures HeadOk(cell, heads, listed, k) {}
      forall k: Class {:trigger SlBit(heads, slBitmap, k)} | k.Valid()
        ensures SlBit(heads, slBitmap, k)
      {
        BitZero(k.sl);
      }
      forall f {:trigger Bit(0, f)} | 0 <= f < FL_COUNT ensures Bit(0, f) <==> slBitmap[f] != 0 { BitZero(f); }
    }

    /** the end of malloc: take the block off its list, cut it, mark it used */
    method Carve(b: Addr, need: nat)
      requires Base() && BusyBut(b) && b in listed && IsHeader(cell, b) && MIN_BLOCK <= need <= cell[b].size
      requires need % ALIGN == 0
      modifies `cell, `heads, `slBitmap, `flBitmap, `listed, `rank, `stamp, `home
      ensures Base() && AllBusy(cell, home, regions)
      ensures IsUsed(cell, home, b) && !IsUsed(old(cell), old(home), b)
      ensures cell[b].size == if old(cell)[b].size < need + MIN_BLOCK then old(cell)[b].size else need
      ensures UsedSame(old(cell), old(home), cell, home, b)
    {
      ghost var c0, home0 := cell, home;
      ZeroNotUsed(c0, home0);
      assert ListedAt(cell, home, listed, {}, b);
      BlockBacked(cell, home, regions, cache, mapped, b);
      Delist(b, {});
      assert {} + {b} == {b};
      ghost var c1 := cell;
      UsedSameShift(c0, home0, c1, home0, 0, b);
      BackedKeys(c0, c1, home[b]);
      Split(b, need);
      ghost var c2 := cell;
      UsedSameTrans(c0, home0, c1, home0, c2, home, b);
      UseStage(cell, home, heads, listed, rank, stamp, {b}, {}, b);
      assert {b} - {b} == {};
      cell := cell[b := cell[b].(used := true)];
      assert cell == Retag(c2, b, true);
      UsedSameTrans(c0, home0, c2, home, cell, home, b);
      UsableKeys(c0, cell, mapped);
      CarvedBusy(c0, home0, cell, home, regions, b);
    }

    /** malloc */
    method Malloc(size: nat) returns (p: Addr)
      requires Valid()
      modifies this
      ensures Valid() && ContentsKept(old(cell), cell, old(live), 0)
      ensures p == 0 ==> live == old(live)
      ensures p != 0 ==> p !in old(live) && live == old(live)[p := size] && p % ALIGN == 0
      ensures SizeToBlock(size).None? ==> p == 0
      ensures p != 0 ==> Snug(cell, p, size)
      ensures old(log) <= log
      ensures p == 0 ==> Exhausted(old(cell), old(listed), old(cache), old(log), log, size)
      ensures p != 0 ==> Chosen(old(cell), old(listed), old(log), log, p, size)
    {
      UsedSameRefl(cell, home, 0);
      ZeroNotUsed(cell, home);
      LiveSame(cell, home, cell, home, live);
      var need := SizeToBlock(size);
      if need.None? { return 0; }
      var b, _ := Obtain(need.value);
      ZeroNotUsed(cell, home);
      LiveSame(old(cell), old(home), cell, home, live);
      if b.None? { return 0; }
      ghost var c1 := cell;
      p := HandOut(b.value, size, need.value);
      ContentsTrans(old(cell), c1, cell, old(live), 0);
    }

    /** the end of malloc: the block becomes an allocation */
    method HandOut(b: Addr, size: nat, need: nat) returns (p: Addr)
      requires Base() && BusyBut(b) && b in listed && IsHeader(cell, b) && need <= cell[b].size
      requires SizeToBlock(size) == Some(need) && LiveOk(cell, home, live)
      modifies `cell, `heads, `slBitmap, `flBitmap, `listed, `rank, `stamp, `home, `live
      ensures p == b + HEADER && Valid() && ContentsKept(old(cell), cell, old(live), 0)
      ensures p !in old(live) && live == old(live)[p := size] && p % ALIGN == 0 && Snug(cell, p, size)
    {
      UsedSameRefl(cell, home, 0);
      ZeroNotUsed(cell, home);
      ghost var c1, home1 := cell, home;
      Carve(b, need);
      p := b + HEADER;
      MallocEffect(c1, home1, c1, home1, cell, home, live, b, size);
      live := live[p := size];
      ProperSize(cell, home, b);
      PayloadAligned(b);
    }

    /** free: ignores null and a block that is already free */
    method Free(ptr: Addr)
      requires Valid() && (ptr == 0 || ptr in live || (ptr >= HEADER && IsFree(cell, home, ptr - HEADER)))
      modifies this
      ensures Valid() && live == old(live) - {ptr} && ContentsKept(old(cell), cell, old(live), ptr)
      ensures ptr !in old(live) ==> cell == old(cell) && regions == old(regions) && cache == old(cache)
      ensures ptr in old(live) ==> ptr >= HEADER && UsedSame(old(cell), old(home), cell, home, ptr - HEADER)
      ensures ptr in old(live) ==> Shrinks(old(home), ptr - HEADER, old(regions), old(cache), regions, cache)
      ensures log == old(log)
    {
      UsedSameRefl(cell, home, 0);
      ZeroNotUsed(cell, home);
      LiveSame(cell, home, cell, home, live);
      assert 0 in live ==> LiveAt(cell, home, live, 0);
      if ptr == 0 { return; }
      assert ptr in live ==> LiveAt(cell, home, live, ptr);
      var b := ptr - HEADER;
      if !cell[b].used {
        forall q {:trigger KeptAt(cell, cell, live, q)} | q in live && q != ptr ensures KeptAt(cell, cell, live, q) {}
        return;
      }
      assert LiveUsed(cell, home, live, b);
      FreeBlock(b);
      LiveDrop(old(cell), old(home), cell, home, live, b);
      live := live - {ptr};
    }

    /** calloc */
    method Calloc(nmemb: nat, size: nat) returns (p: Addr)
      requires Valid() && nmemb < WORD_MAX && size < WORD_MAX
      modifies this
      ensures Valid() && ContentsKept(old(cell), cell, old(live), 0)
      ensures p == 0 ==> live == old(live)
      ensures p != 0 ==> p !in old(live) && live == old(live)[p := nmemb * size] && p % ALIGN == 0
      ensures p != 0 ==> forall i: nat {:trigger ByteIs(cell, p, i, 0)} | i < nmemb * size :: ByteIs(cell, p, i, 0)
      ensures nmemb * size >= WORD_MAX ==> p == 0
      ensures p != 0 ==> Snug(cell, p, nmemb * size)
      ensures old(log) <= log
      ensures p == 0 ==> Exhausted(old(cell), old(listed), old(cache), old(log), log, nmemb * size)
      ensures p != 0 ==> Chosen(old(cell), old(listed), old(log), log, p, nmemb * size)
    {
      UsedSameRefl(cell, home, 0);
      ZeroNotUsed(cell, home);
      LiveSame(cell, home, cell, home, live);
      ProductRefused(nmemb, size);
      if nmemb == 0 || size == 0 { return 0; }
      if nmemb > (WORD_MAX - 1) / size { return 0; }
      var total := nmemb * size;
      p := Malloc(total);
      if p != 0 {
        ghost var c1 := cell;
        Clear(p, total);
        forall q {:trigger KeptAt(c1, cell, old(live), q)} | q in old(live) && q != 0
          ensures KeptAt(c1, cell, old(live), q)
        {
          assert KeptAt(c1, cell, live, q);
        }
        ContentsTrans(old(cell), c1, cell, old(live), 0);
      }
    }

    /** the memset of calloc */
    method Clear(p: Addr, n: nat)
      requires Valid() && p in live && live[p] == n && Snug(cell, p, n)
      modifies `cell
      ensures Valid() && Snug(cell, p, n) && ContentsKept(old(cell), cell, live, p)
      ensures forall i: nat {:trigger ByteIs(cell, p, i, 0)} | i < n :: ByteIs(cell, p, i, 0)
    {
      PayloadAddressable(p);
      var c := Memset(cell, p, 0, n);
      SnugWritten(cell, c, p, n, n);
      UserWrite(c, p, n);
    }

    /** the payload of a live allocation is addressable, up to a whole granule */
    lemma PayloadAddressable(p: Addr)
      requires Valid() && p in live
      ensures p >= HEADER && IsUsed(cell, home, p - HEADER) && live[p] + HEADER <= cell[p - HEADER].size
      ensures p % ALIGN == 0
      ensures Addressable(cell, p, cell[p - HEADER].size - HEADER)
    {
      assert LiveAt(cell, home, live, p);
      var b := p - HEADER;
      ProperSize(cell, home, b);
      BlockBacked(cell, home, regions, cache, mapped, b);
      BlockInRegion(cell, home, b);
      forall g: Addr {:trigger g in cell} | p <= g < p + (cell[b].size - HEADER) && g % ALIGN == 0 ensures g in cell {
        assert InRegion(home[b], g);
      }
    }

    /** the user changes the first n bytes of an allocation: the allocator's
        invariant and all other allocations are unaffected */
    method UserWrite(c: Cells, p: Addr, n: nat)
      requires Valid() && p in live && n <= live[p] && SameBut(cell, c, p, p + n) && c.Keys == cell.Keys
      modifies `cell
      ensures Valid() && cell == c && ContentsKept(old(cell), cell, live, p)
    {
      PayloadAddressable(p);
      var b := p - HEADER;
      PayloadStage(cell, c, home, heads, listed, rank, stamp, b);
      UsableKeys(cell, c, mapped);
      LiveSet(cell, home, c, home, live, b, live[p]);
      assert live[p := live[p]] == live;
      ghost var c0 := cell;
      cell := c;
      forall r {:trigger Busy(cell, home, r)} | r in regions ensures Busy(cell, home, r) {
        assert Busy(c0, home, r);
        if r != home[b] { BusyKeptBut(c0, home, cell, home, b, r); }
      }
    }

    /** realloc into the block's own space */
    method Trim(b: Addr, need: nat)
      requires Base() && AllBusy(cell, home, regions) && IsUsed(cell, home, b)
      requires MIN_BLOCK <= need <= cell[b].size && need % ALIGN == 0
      modifies `cell, `heads, `slBitmap, `flBitmap, `listed, `rank, `stamp, `home
      ensures Base() && AllBusy(cell, home, regions)
      ensures IsUsed(cell, home, b)
      ensures cell[b].size == if old(cell)[b].size < need + MIN_BLOCK then old(cell)[b].size else need
      ensures UsedSame(old(cell), old(home), cell, home, b) && SameRange(old(cell), cell, b + HEADER, b + cell[b].size)
    {
      ghost var c0, home0 := cell, home;
      ExceptUsed(cell, home, heads, listed, rank, stamp, {}, {}, b);
      assert {} + {b} == {b};
      BlockBacked(cell, home, regions, cache, mapped, b);
      Split(b, need);
      ExceptUsed(cell, home, heads, listed, rank, stamp, {b}, {}, b);
      assert {b} - {b} == {};
      UsableKeys(c0, cell, mapped);
      UsedBusy(c0, home0, cell, home, regions, b);
    }

    /** join a used block with its free right neighbour */
    method TakeNext(b: Addr, next: Addr)
      requires InOrder({}, {}) && Covered(home, regions) && IsUsed(cell, home, b)
      requires next == b + cell[b].size && next in home && IsHeader(cell, next) && !cell[next].used
      modifies `cell, `heads, `slBitmap, `flBitmap, `listed, `home
      ensures InOrder({}, {}) && Covered(home, regions) && cell.Keys == old(cell).Keys
      ensures IsUsed(cell, home, b) && home[b] == old(home)[b]
      ensures cell[b].size == old(cell)[b].size + old(cell)[next].size
      ensures UsedSame(old(cell), old(home), cell, home, b)
      ensures SameRange(old(cell), cell, b + HEADER, b + old(cell)[b].size)
    {
      TakeStage(cell, home, heads, listed, rank, stamp, b, next);
      CoveredRemove(home, regions, next);
      FreeRemove(next);
      cell := cell[b := cell[b].(size := cell[b].size + cell[next].size)];
      var after := b + cell[b].size;
      cell := cell[after := cell[after].(prevSize := cell[b].size)];
      home := home - {next};
    }

    /** realloc by growing into the right neighbour */
    method Extend(b: Addr, next: Addr, need: nat)
      requires Base() && AllBusy(cell, home, regions) && IsUsed(cell, home, b)
      requires next == b + cell[b].size && next in home && IsHeader(cell, next) && !cell[next].used
      requires MIN_BLOCK <= need && cell[b].size < need <= cell[b].size + cell[next].size && need % ALIGN == 0
      modifies `cell, `heads, `slBitmap, `flBitmap, `listed, `rank, `stamp, `home
      ensures Base() && AllBusy(cell, home, regions)
      ensures IsUsed(cell, home, b) && need <= cell[b].size < need + MIN_BLOCK
      ensures UsedSame(old(cell), old(home), cell, home, b)
      ensures SameRange(old(cell), cell, b + HEADER, b + old(cell)[b].size)
    {
      ghost var c0, home0 := cell, home;
      TakeNext(b, next);
      ghost var c1, home1 := cell, home;
      UsableKeys(c0, c1, mapped);
      UsedBusy(c0, home0, c1, home1, regions, b);
      Trim(b, need);
      UsedSameTrans(c0, home0, c1, home1, cell, home, b);
      SameRangeTrans(c0, c1, cell, b + HEADER, b + c0[b].size);
    }

    /** realloc */
    method Realloc(ptr: Addr, size: nat) returns (q: Addr)
      requires Valid() && (ptr == 0 || ptr in live)
      modifies this
      ensures Valid() && ContentsKept(old(cell), cell, old(live), ptr)
      ensures ptr == 0 && q == 0 ==> live == old(live)
      ensures ptr == 0 && q != 0 ==> q !in old(live) && live == old(live)[q := size] && q % ALIGN == 0
      ensures ptr != 0 && size == 0 ==> q == 0 && live == old(live) - {ptr}
      ensures ptr != 0 && size != 0 && q == 0 ==> live == old(live) && ContentsKept(old(cell), cell, old(live), 0)
      ensures ptr != 0 && q != 0 ==>
                && q % ALIGN == 0 && (q == ptr || q !in old(live)) && live == (old(live) - {ptr})[q := size]
                && CopiedTo(old(cell), cell, q, ptr, Min(old(live)[ptr], size))
      ensures ptr != 0 && size != 0 ==> (q == ptr <==> FitsInPlace(old(cell), ptr, size))
      ensures q != 0 ==> Snug(cell, q, size)
      ensures old(log) <= log && (ptr != 0 && q == ptr ==> log == old(log))
      ensures q == 0 && size != 0 ==> Exhausted(old(cell), old(listed), old(cache), old(log), log, size)
      ensures q != 0 && q != ptr ==> Chosen(old(cell), old(listed), old(log), log, q, size)
    {
      if ptr == 0 {
        q := Malloc(size);
        return;
      }
      UsedSameRefl(cell, home, 0);
      ZeroNotUsed(cell, home);
      LiveSame(cell, home, cell, home, live);
      if size == 0 {
        Free(ptr);
        return 0;
      }
      var need := SizeToBlock(size);
      if need.None? { return 0; }
      var done := InPlace(ptr, size, need.value);
      if done { return ptr; }
      q := Move(ptr, size);
    }

    /** realloc without moving: the block is large enough, or it and a free right
        neighbour are */
    method InPlace(ptr: Addr, size: nat, need: nat) returns (done: bool)
      requires Valid() && ptr in live && SizeToBlock(size) == Some(need)
      modifies `cell, `heads, `slBitmap, `flBitmap, `listed, `rank, `stamp, `home, `live
      ensures ptr != 0 && (done <==> FitsInPlace(old(cell), ptr, size))
      ensures Valid() && (!done ==> cell == old(cell) && listed == old(listed) && live == old(live))
      ensures done ==> ptr % ALIGN == 0 && live == (old(live) - {ptr})[ptr := size] && Snug(cell, ptr, size)
      ensures done ==> ContentsKept(old(cell), cell, old(live), ptr)
      ensures done ==> CopiedTo(old(cell), cell, ptr, ptr, Min(old(live)[ptr], size))
    {
      PayloadAddressable(ptr);
      var b := ptr - HEADER;
      ProperSize(cell, home, b);
      if need <= cell[b].size {
        Trim(b, need);
        Resized(old(cell), old(home), ptr, size);
        return true;
      }
      var next := b + cell[b].size;
      if !cell[next].used {
        FreeIsProper(cell, home, next);
        ProperSize(cell, home, next);
        var total := if cell[next].size <= WORD_MAX - 1 - cell[b].size then cell[b].size + cell[next].size else 0;
        if total >= need {
          Extend(b, next, need);
          Resized(old(cell), old(home), ptr, size);
          return true;
        }
      }
      done := false;
    }

    /** record the new size of an allocation resized in place */
    ghost method Resized(c0: Cells, home0: Homes, ptr: Addr, size: nat)
      requires Base() && AllBusy(cell, home, regions) && LiveOk(c0, home0, live) && ptr in live && ptr >= HEADER
      requires ptr % ALIGN == 0
      requires UsedSame(c0, home0, cell, home, ptr - HEADER) && IsUsed(cell, home, ptr - HEADER)
      requires size + HEADER <= cell[ptr - HEADER].size && SameRange(c0, cell, ptr, ptr + Min(live[ptr], size))
      modifies `live
      ensures Valid() && live == (old(live) - {ptr})[ptr := size]
      ensures ContentsKept(c0, cell, old(live), ptr) && CopiedTo(c0, cell, ptr, ptr, Min(old(live)[ptr], size))
    {
      LiveSet(c0, home0, cell, home, live, ptr - HEADER, size);
      SameIsCopied(c0, cell, ptr, Min(live[ptr], size));
      assert live[ptr := size] == (live - {ptr})[ptr := size];
      live := live[ptr := size];
    }

    /** realloc by allocating anew, copying and freeing */
    method Move(ptr: Addr, size: nat) returns (q: Addr)
      requires Valid() && ptr in live && size > 0
      modifies this
      ensures Valid() && ContentsKept(old(cell), cell, old(live), ptr)
      ensures q == 0 ==> live == old(live) && ContentsKept(old(cell), cell, old(live), 0)
      ensures q != 0 ==> q % ALIGN == 0 && q !in old(live) && live == (old(live) - {ptr})[q := size]
      ensures q != 0 ==> CopiedTo(old(cell), cell, q, ptr, Min(old(live)[ptr], size))
      ensures q != 0 ==> Snug(cell, q, size)
      ensures old(log) <= log
      ensures q == 0 ==> Exhausted(old(cell), old(listed), old(cache), old(log), log, size)
      ensures q != 0 ==> Chosen(old(cell), old(listed), old(log), log, q, size)
    {
      assert 0 in live ==> LiveAt(cell, home, live, 0);
      q := Malloc(size);
      forall x {:trigger KeptAt(old(cell), cell, old(live), x)} | x in old(live) && x != ptr
        ensures KeptAt(old(cell), cell, old(live), x)
      {
      }
      if q == 0 { return; }
      ghost var c1 := cell;
      var copy := CopyPayload(q, ptr, size);
      ghost var c2, home2 := cell, home;
      Free(ptr);
      SnugUsed(c2, home2, cell, home, ptr - HEADER, q, size);
      MoveEffect(old(cell), c1, c2, cell, old(live), ptr, q, size, copy);
      assert old(live)[q := size] - {ptr} == (old(live) - {ptr})[q := size];
    }

    /** the copy of realloc: as much of the old block as the new one can hold */
    method CopyPayload(q: Addr, ptr: Addr, size: nat) returns (copy: nat)
      requires Valid() && q in live && ptr in live && q != ptr && live[q] == size && Snug(cell, q, size)
      modifies `cell
      ensures Valid() && CopiedTo(old(cell), cell, q, ptr, copy) && ContentsKept(old(cell), cell, live, q)
      ensures Min(live[ptr], size) <= copy <= size && Snug(cell, q, size)
      ensures q >= HEADER && IsUsed(cell, home, q - HEADER) && ptr % ALIGN == 0
    {
      PayloadAddressable(ptr);
      PayloadAddressable(q);
      assert Apart(cell, ptr - HEADER, q - HEADER) && Apart(cell, q - HEADER, ptr - HEADER);
      var capacity := cell[ptr - HEADER].size - HEADER;
      copy := if capacity < size then capacity else size;
      var c := Memcpy(cell, q, ptr, copy);
      SnugWritten(cell, c, q, size, copy);
      UserWrite(c, q, copy);
      PayloadAddressable(q);
    }
  }

  function Min(a: nat, b: nat): nat { if a < b then a else b }

  /** a block that stays in use keeps its region busy */
  lemma UsedBusy(c0: Cells, home0: Homes, c: Cells, home: Homes, regions: seq<Region>, b: Addr)
    requires AllBusy(c0, home0, regions) && UsedSame(c0, home0, c, home, b)
    requires IsUsed(c, home, b) && b in home0 && home[b] == home0[b]
    ensures AllBusy(c, home, regions)
  {
    CarvedBusy(c0, home0, c, home, regions, b);
  }

  lemma NoOverflow(nmemb: nat, size: nat)
    requires size > 0
    ensures nmemb > (WORD_MAX - 1) / size <==> nmemb * size >= WORD_MAX
  {
    var q := (WORD_MAX - 1) / size;
    assert q * size <= WORD_MAX - 1 < q * size + size;
    if nmemb > q { MulMono(q + 1, nmemb, size); } else { MulMono(nmemb, q, size); }
  }

  /** the products calloc turns down are no legal sizes */
  lemma ProductRefused(nmemb: nat, size: nat)
    ensures nmemb * size >= 0
    ensures nmemb == 0 || size == 0 || nmemb > (WORD_MAX - 1) / size ==> SizeToBlock(nmemb * size).None?
    ensures nmemb * size >= WORD_MAX ==> size > 0 && nmemb > (WORD_MAX - 1) / size
  {
    if size > 0 { NoOverflow(nmemb, size); }
  }

  function AllClasses(): set<Class> { set f: nat, s: nat | f < FL_COUNT && s < SL_COUNT :: Class(f, s) }

  lemma CarvedBusy(c0: Cells, home0: Homes, c: Cells, home: Homes, regions: seq<Region>, b: Addr)
    requires UsedSame(c0, home0, c, home, b) && IsUsed(c, home, b) && b in home0 && home[b] == home0[b]
    requires forall r {:trigger Busy(c0, home0, r)} | r in regions && r != home0[b] :: Busy(c0, home0, r)
    ensures AllBusy(c, home, regions)
  {
    forall r {:trigger Busy(c, home, r)} | r in regions ensures Busy(c, home, r) {
      if r != home[b] {
        assert Busy(c0, home0, r);
        BusyKeptBut(c0, home0, c, home, b, r);
      }
    }
  }

  /** freeing b leaves every region busy but perhaps its own */
  lemma OthersBusy(c0: Cells, home0: Homes, c: Cells, home: Homes, regions0: seq<Region>, regions: seq<Region>, b: Addr)
    requires AllBusy(c0, home0, regions0) && UsedSame(c0, home0, c, home, b) && b in home0
    requires forall s | s in regions :: s in regions0 && (s == home0[b] ==> Busy(c, home, s))
    ensures AllBusy(c, home, regions)
  {
    forall s {:trigger Busy(c, home, s)} | s in regions ensures Busy(c, home, s) {
      if s != home0[b] {
        assert Busy(c0, home0, s);
        BusyKeptBut(c0, home0, c, home, b, s);
      }
    }
  }

  lemma MallocEffect(c0: Cells, home0: Homes, c1: Cells, home1: Homes, c: Cells, home: Homes, live: map<Addr, nat>,
        b: Addr, size: nat)
    requires LiveOk(c0, home0, live) && UsedSame(c0, home0, c1, home1, 0) && 0 !in home0 && 0 !in home1
    requires UsedSame(c1, home1, c, home, b) && !IsUsed(c1, home1, b) && IsUsed(c, home, b)
    requires size + HEADER <= c[b].size
    ensures b + HEADER !in live && LiveOk(c, home, live[b + HEADER := size]) && ContentsKept(c0, c, live, 0)
  {
    LiveSame(c0, home0, c1, home1, live);
    LiveSet(c1, home1, c, home, live, b, size);
    assert b + HEADER in live ==> LiveAt(c1, home1, live, b + HEADER);
    forall q {:trigger KeptAt(c1, c, live, q)} | q in live && q != 0 ensures KeptAt(c1, c, live, q) {}
    ContentsTrans(c0, c1, c, live, 0);
  }

  /** all older listed blocks are too small, so only the new one can be found */
  lemma FreshBlockFound(c0: Cells, home0: Homes, c: Cells, listed0: set<Addr>, listed: set<Addr>, need: nat, r: Region,
        b: Option<Addr>)
    requires BlockSize(need) && MappingSearch(need).Some? && r.size >= OVERHEAD && listed == listed0 + {r.First()}
    requires AllProper(home0, listed0) && AllKept(c0, c, home0)
    requires forall a | a in listed0 :: IsHeader(c0, a) && c0[a].size < ClassMin(MappingSearch(need).value)
    requires IsHeader(c, r.First()) && ClassMin(MappingSearch(need).value) <= c[r.First()].size
    requires b.Some? ==>
      b.value in listed && IsHeader(c, b.value) && c[b.value].size >= ClassMin(MappingSearch(need).value)
    requires b.None? ==> forall a | a in listed :: IsHeader(c, a) && c[a].size < ClassMin(MappingSearch(need).value)
    ensures b == Some(r.First())
  {
    assert r.First() in listed;
    if b.Some? && b.value in listed0 { assert Proper(home0, b.value); }
    assert b.Some? && b.value in listed0 ==> Kept(c0, c, b.value);
  }

  /** a proper block's links are addressable */
  lemma BlockBacked(c: Cells, home: Homes, regions: seq<Region>, cache: seq<Region>, mapped: set<Region>, b: Addr)
    requires Phys(c, home) && Covered(home, regions) && Accounted(regions, cache, multiset{}, mapped)
    requires Usable(c, mapped)
    requires Proper(home, b)
    ensures Backed(c, home[b]) && home[b].Shaped() && b + HEADER in c
  {
    assert HomeIn(home, regions, b);
    InOne(regions, cache, multiset{}, mapped, home[b]);
    assert home[b].Shaped();
    ProperSize(c, home, b);
    assert InRegion(home[b], b + HEADER);
  }

  lemma FreeEffect(c0: Cells, home0: Homes, c1: Cells, home1: Homes, c2: Cells, home2: Homes, b: Addr)
    requires UsedSame(c0, home0, c1, home1, b) && UsedSame(c1, home1, c2, home2, 0)
    requires !IsUsed(c1, home1, b) && 0 !in home1 && Phys(c2, home2)
    ensures UsedSame(c0, home0, c2, home2, b) && !IsUsed(c2, home2, b)
  {
    ZeroNotUsed(c2, home2);
    UsedSameShift(c1, home1, c2, home2, 0, b);
    UsedSameTrans(c0, home0, c1, home1, c2, home2, b);
    if b != 0 { assert UsedSameAt(c1, home1, c2, home2, b); }
  }

  /** the three steps of a split together */
  lemma SplitEffect(c0: Cells, home0: Homes, c1: Cells, home1: Homes, c2: Cells, home2: Homes, c3: Cells, b: Addr,
        t: Addr)
    requires UsedSame(c0, home0, c1, home1, b) && UsedSame(c1, home1, c2, home2, t) && UsedSame(c2, home2, c3, home2, 0)
    requires !IsUsed(c1, home1, t) && !IsUsed(c2, home2, t) && 0 !in home2 && b != t
    requires Proper(home1, b) && IsHeader(c1, b)
    ensures UsedSame(c0, home0, c3, home2, b)
    ensures c1[b].used ==>
      IsUsed(c3, home2, b) && c3[b].size == c1[b].size && home2[b] == home1[b] && SamePayload(c1, c3, b)
  {
    UsedSameShift(c2, home2, c3, home2, 0, t);
    UsedSameTrans(c1, home1, c2, home2, c3, home2, t);
    if c1[b].used { assert UsedSameAt(c1, home1, c3, home2, b); }
    assert !IsUsed(c3, home2, t) by { if t != 0 { assert UsedSameAt(c2, home2, c3, home2, t); } }
    UsedSameShift(c1, home1, c3, home2, t, b);
    UsedSameTrans(c0, home0, c1, home1, c3, home2, b);
  }

  lemma FirstLevelBit(sl: seq<nat>, fl: nat, f: nat)
    requires FlOk(sl, fl) && Bit(fl, f)
    ensures f < FL_COUNT && sl[f] > 0
  {
    Pow2Values();
    var n := 39;
    BitInRange(fl, f, n);
  }

  lemma SecondLevelBit(sl: seq<nat>, f: nat, s: nat)
    requires |sl| == FL_COUNT && f < FL_COUNT && sl[f] < 0x1_0000_0000 && Bit(sl[f], s)
    ensures s < SL_COUNT
  {
    Pow2Values();
    var n := 32;
    BitInRange(sl[f], s, n);
  }
}
