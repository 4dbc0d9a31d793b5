/** How each primitive step of the allocator (tag, link, cut, join) acts on the
    blocks in use: which blocks are used, what their payloads hold, and which
    blocks are free and must be listed. */
module TlsfSteps {
  import opened TlsfMapping
  import opened TlsfHeap
  import opened TlsfLists

  ghost predicate IsUsed(c: Cells, home: Homes, a: Addr) {
    Proper(home, a) && IsHeader(c, a) && c[a].used
  }

  ghost predicate SameCell(c: Cells, c': Cells, g: Addr) {
    (g in c <==> g in c') && (g in c ==> c'[g] == c[g])
  }

  /** the block at a keeps its size and its used bit */
  ghost predicate Kept(c: Cells, c': Cells, a: Addr) {
    IsHeader(c, a) && IsHeader(c', a) && c'[a].size == c[a].size && c'[a].used == c[a].used
  }

  ghost predicate AllKept(c: Cells, c': Cells, home: Homes) {
    forall a {:trigger Kept(c, c', a)} | a in home :: Kept(c, c', a)
  }

  lemma AllKeptTrans(c: Cells, c1: Cells, c2: Cells, home: Homes)
    requires AllKept(c, c1, home) && AllKept(c1, c2, home)
    ensures AllKept(c, c2, home)
  {
    forall a {:trigger Kept(c, c2, a)} | a in home ensures Kept(c, c2, a) {
      assert Kept(c, c1, a) && Kept(c1, c2, a);
    }
  }

  lemma AllKeptRefl(c: Cells, home: Homes)
    requires Phys(c, home)
    ensures AllKept(c, c, home)
  {
    forall a {:trigger Kept(c, c, a)} | a in home ensures Kept(c, c, a) {
      assert BlockOk(c, home, a);
    }
  }

  /** memory from lo up to hi is untouched */
  ghost predicate SameRange(c: Cells, c': Cells, lo: Addr, hi: Addr) {
    forall g {:trigger SameCell(c, c', g)} | lo <= g < hi :: SameCell(c, c', g)
  }

  /** the payload of the used block a is untouched */
  ghost predicate SamePayload(c: Cells, c': Cells, a: Addr) {
    IsHeader(c, a) && SameRange(c, c', a + HEADER, a + c[a].size)
  }

  /** a is in use before iff after, with the same extent and contents */
  ghost predicate UsedSameAt(c: Cells, home: Homes, c': Cells, home': Homes, a: Addr) {
    && (IsUsed(c, home, a) <==> IsUsed(c', home', a))
    && (IsUsed(c, home, a) ==> c'[a].size == c[a].size && home'[a] == home[a] && SamePayload(c, c', a))
  }

  /** every used block other than b keeps its extent and its contents */
  ghost predicate UsedSame(c: Cells, home: Homes, c': Cells, home': Homes, b: Addr) {
    forall a {:trigger UsedSameAt(c, home, c', home', a)} | a != b :: UsedSameAt(c, home, c', home', a)
  }

  ghost predicate ListedAt(c: Cells, home: Homes, listed: set<Addr>, ex: set<Addr>, a: Addr) {
    a in listed <==> IsFree(c, home, a) && a !in ex
  }

  /** exactly the free blocks outside ex are listed */
  ghost predicate ListedBut(c: Cells, home: Homes, listed: set<Addr>, ex: set<Addr>) {
    forall a {:trigger ListedAt(c, home, listed, ex, a)} :: ListedAt(c, home, listed, ex, a)
  }

  /** The heap is in order, except that the blocks in ex may be free without
      being listed, and those in ex and gap may have a free right neighbour. */
  ghost predicate Consistent(c: Cells, home: Homes, heads: Heads, listed: set<Addr>, rank: Ranks, stamp: nat,
        ex: set<Addr>, gap: set<Addr>)
  {
    && Phys(c, home)
    && ListsOk(c, heads, listed, rank, stamp)
    && ListedBut(c, home, listed, ex)
    && CoalescedBut(c, home, ex + gap)
  }

  lemma UsedSameTrans(c: Cells, home: Homes, c1: Cells, home1: Homes, c2: Cells, home2: Homes, b: Addr)
    requires UsedSame(c, home, c1, home1, b) && UsedSame(c1, home1, c2, home2, b)
    ensures UsedSame(c, home, c2, home2, b)
  {
    forall a: Addr {:trigger UsedSameAt(c, home, c2, home2, a)} | a != b ensures UsedSameAt(c, home, c2, home2, a) {
      assert UsedSameAt(c, home, c1, home1, a);
      assert UsedSameAt(c1, home1, c2, home2, a);
      if IsUsed(c, home, a) {
        forall g {:trigger SameCell(c, c2, g)} | a + HEADER <= g < a + c[a].size ensures SameCell(c, c2, g) {
          assert SameCell(c, c1, g) && SameCell(c1, c2, g);
        }
      }
    }
  }

  lemma UsedSameShift(c: Cells, home: Homes, c': Cells, home': Homes, x: Addr, b: Addr)
    requires UsedSame(c, home, c', home', x) && !IsUsed(c, home, x) && !IsUsed(c', home', x)
    ensures UsedSame(c, home, c', home', b)
  {
    forall a: Addr {:trigger UsedSameAt(c, home, c', home', a)} | a != b ensures UsedSameAt(c, home, c', home', a) {
    }
  }

  lemma UsedSameRefl(c: Cells, home: Homes, b: Addr)
    ensures UsedSame(c, home, c, home, b)
  {
    forall a: Addr {:trigger UsedSameAt(c, home, c, home, a)} | a != b ensures UsedSameAt(c, home, c, home, a) {
    }
  }

  lemma ZeroNotUsed(c: Cells, home: Homes)
    requires Phys(c, home)
    ensures 0 !in home
  {
    assert 0 in home ==> AlignedAt(c, 0);
  }

  lemma SameRangeTrans(c: Cells, c1: Cells, c2: Cells, lo: Addr, hi: Addr)
    requires SameRange(c, c1, lo, hi) && SameRange(c1, c2, lo, hi)
    ensures SameRange(c, c2, lo, hi)
  {
    forall g {:trigger SameCell(c, c2, g)} | lo <= g < hi ensures SameCell(c, c2, g) {
      assert SameCell(c, c1, g) && SameCell(c1, c2, g);
    }
  }

  /** a block marked free is never a sentinel */
  lemma FreeIsProper(c: Cells, home: Homes, a: Addr)
    requires Phys(c, home) && a in home && IsHeader(c, a) && !c[a].used
    ensures IsFree(c, home, a) && BlockSize(c[a].size)
  {
    assert BlockOk(c, home, a);
  }

  lemma ProperSize(c: Cells, home: Homes, a: Addr)
    requires Phys(c, home) && Proper(home, a)
    ensures IsHeader(c, a) && BlockSize(c[a].size) && c[a].size % ALIGN == 0 && a % ALIGN == 0 && a > 0
    ensures a + c[a].size in home && home[a + c[a].size] == home[a] && a + c[a].size <= home[a].End()
    ensures IsHeader(c, a + c[a].size) && c[a + c[a].size].prevSize == c[a].size
    ensures c[a].prevSize <= a && a - c[a].prevSize in home && home[a - c[a].prevSize] == home[a]
    ensures IsHeader(c, a - c[a].prevSize) && c[a - c[a].prevSize].size == c[a].prevSize
  {
    assert BlockOk(c, home, a);
    assert AlignedAt(c, a);
  }

  /** no other block's header or links lie in the extent of a */
  lemma Elsewhere(c: Cells, home: Homes, x: Addr, a: Addr)
    requires Phys(c, home) && x in home && a in home && x != a
    ensures IsHeader(c, a) && (x < a || a + c[a].size <= x)
    ensures Proper(home, x) ==> x + HEADER < a || a + c[a].size <= x + HEADER
  {
    assert BlockOk(c, home, a);
    assert BlockOk(c, home, x);
    assert Apart(c, x, a) && Apart(c, a, x);
  }

  // ----- linking and unlinking -----

  ghost predicate AllProper(home: Homes, listed: set<Addr>) {
    forall a {:trigger Proper(home, a)} | a in listed :: Proper(home, a)
  }

  lemma ListedProper(c: Cells, home: Homes, listed: set<Addr>, ex: set<Addr>)
    requires ListedBut(c, home, listed, ex)
    ensures AllProper(home, listed)
  {
    forall a {:trigger Proper(home, a)} | a in listed ensures Proper(home, a) {
      assert ListedAt(c, home, listed, ex, a);
    }
  }

  /** Unlinking touches no header and no payload in use. */
  lemma RemoveStep(c: Cells, home: Homes, heads: Heads, listed: set<Addr>, rank: Ranks, stamp: nat, b: Addr)
    requires Phys(c, home) && CanRemove(c, heads, listed, rank, stamp, b) && AllProper(home, listed)
    ensures NodeOk(c, heads, listed, rank, b)
    ensures forall a | a in home :: a in c && a in RemoveCells(c, b) && RemoveCells(c, b)[a] == c[a]
  {
    RemoveReady(c, heads, listed, rank, stamp, b);
    var l := c[b + HEADER];
    forall a | a in home ensures a in c && a in RemoveCells(c, b) && RemoveCells(c, b)[a] == c[a] {
      BlockInRegion(c, home, a);
      if l.prev != 0 { assert Proper(home, l.prev); LinksInside(c, home, l.prev, a); }
      if l.next != 0 { assert Proper(home, l.next); LinksInside(c, home, l.next, a); }
    }
  }

  lemma RemoveUsed(c: Cells, home: Homes, heads: Heads, listed: set<Addr>, rank: Ranks, stamp: nat, b: Addr, a: Addr)
    requires Phys(c, home) && CanRemove(c, heads, listed, rank, stamp, b) && AllProper(home, listed)
    requires a in home && a !in listed
    ensures NodeOk(c, heads, listed, rank, b)
    ensures SamePayload(c, RemoveCells(c, b), a)
  {
    RemoveReady(c, heads, listed, rank, stamp, b);
    BlockInRegion(c, home, a);
    var l := c[b + HEADER];
    if l.prev != 0 { assert Proper(home, l.prev); Elsewhere(c, home, l.prev, a); }
    if l.next != 0 { assert Proper(home, l.next); Elsewhere(c, home, l.next, a); }
  }

  /** Linking touches no header and no payload in use. */
  lemma InsertStep(c: Cells, home: Homes, heads: Heads, listed: set<Addr>, rank: Ranks, stamp: nat, b: Addr)
    requires Phys(c, home) && CanInsert(c, heads, listed, rank, stamp, b) && AllProper(home, listed) && Proper(home, b)
    ensures HeadOk(c, heads, listed, ClassOf(c[b].size))
    ensures
      var c' := InsertCells(c, b, heads[ClassOf(c[b].size)]);
      forall a | a in home :: a in c && a in c' && c'[a] == c[a]
  {
    InsertReady(c, heads, listed, rank, stamp, b);
    var h := heads[ClassOf(c[b].size)];
    var c' := InsertCells(c, b, h);
    forall a | a in home ensures a in c && a in c' && c'[a] == c[a] {
      BlockInRegion(c, home, a);
      LinksInside(c, home, b, a);
      if h != 0 { assert Proper(home, h); LinksInside(c, home, h, a); }
    }
  }

  lemma InsertUsed(c: Cells, home: Homes, heads: Heads, listed: set<Addr>, rank: Ranks, stamp: nat, b: Addr, a: Addr)
    requires Phys(c, home) && CanInsert(c, heads, listed, rank, stamp, b) && AllProper(home, listed) && Proper(home, b)
    requires a in home && a !in listed && a != b
    ensures HeadOk(c, heads, listed, ClassOf(c[b].size))
    ensures SamePayload(c, InsertCells(c, b, heads[ClassOf(c[b].size)]), a)
  {
    InsertReady(c, heads, listed, rank, stamp, b);
    BlockInRegion(c, home, a);
    var h := heads[ClassOf(c[b].size)];
    Elsewhere(c, home, b, a);
    if h != 0 { assert Proper(home, h); Elsewhere(c, home, h, a); }
  }

  // ----- cutting and joining -----

  lemma SplitUsed(c: Cells, home: Homes, b: Addr, need: nat)
    requires CanSplit(c, home, b, need)
    ensures IsHeader(c, b + c[b].size)
    ensures UsedSame(c, home, SplitCells(c, b, need), home[b + need := home[b]], b)
    ensures SameRange(c, SplitCells(c, b, need), b + HEADER, b + need)
  {
    SplitReady(c, home, b, need);
    var c', home' := SplitCells(c, b, need), home[b + need := home[b]];
    var n, t := b + c[b].size, b + need;
    forall a {:trigger UsedSameAt(c, home, c', home', a)} | a != b ensures UsedSameAt(c, home, c', home', a) {
      if a in home {
        BlockInRegion(c, home, a);
        Elsewhere(c, home, b, a);
        Elsewhere(c, home, a, b);
        if a != n { Elsewhere(c, home, n, a); }
        if a == n { assert BlockOk(c, home, n); }
      }
    }
  }

  /** Joining b with a free right neighbour: b may be free or in use. */
  lemma MergeUsed(c: Cells, home: Homes, b: Addr)
    requires CanMerge(c, home, b) && IsHeader(c, b + c[b].size) && !c[b + c[b].size].used
    ensures IsHeader(c, b + c[b].size + c[b + c[b].size].size)
    ensures UsedSame(c, home, MergeCells(c, b), home - {b + c[b].size}, b)
    ensures SameRange(c, MergeCells(c, b), b + HEADER, b + c[b].size)
  {
    MergeReady(c, home, b);
    var n := b + c[b].size;
    var c', home' := MergeCells(c, b), home - {n};
    var after := n + c[n].size;
    forall a: Addr {:trigger UsedSameAt(c, home, c', home', a)} | a != b ensures UsedSameAt(c, home, c', home', a) {
      if a in home && a != n {
        BlockInRegion(c, home, a);
        Elsewhere(c, home, b, a);
        if a != after { Elsewhere(c, home, after, a); }
      }
    }
  }

  // ----- stages: each step keeps the heap in order -----

  /** headers of blocks unchanged: same free blocks, same neighbours */
  lemma HeadersSame(c: Cells, c': Cells, home: Homes, ex: set<Addr>)
    requires Phys(c, home) && CoalescedBut(c, home, ex)
    requires forall a | a in home :: a in c && a in c' && c'[a] == c[a]
    ensures CoalescedBut(c', home, ex)
    ensures forall a :: IsFree(c, home, a) <==> IsFree(c', home, a)
    ensures forall a :: IsUsed(c, home, a) <==> IsUsed(c', home, a)
  {
    forall a {:trigger NextUsed(c', a)} | IsFree(c', home, a) && a !in ex ensures NextUsed(c', a) {
      assert BlockOk(c, home, a);
      assert NextUsed(c, a);
    }
  }

  lemma RemoveStage(c: Cells, home: Homes, heads: Heads, listed: set<Addr>, rank: Ranks, stamp: nat, ex: set<Addr>,
        gap: set<Addr>, b: Addr)
    requires Consistent(c, home, heads, listed, rank, stamp, ex, gap) && b in listed
    ensures NodeOk(c, heads, listed, rank, b) && IsFree(c, home, b)
    ensures CanRemove(c, heads, listed, rank, stamp, b)
    ensures Unlinkable(c, b)
    ensures Consistent(RemoveCells(c, b), home, RemoveHeads(c, heads, b), listed - {b}, rank, stamp, ex + {b}, gap)
    ensures UsedSame(c, home, RemoveCells(c, b), home, 0)
    ensures RemoveCells(c, b).Keys == c.Keys
    ensures forall a | a in home :: a in c && RemoveCells(c, b)[a] == c[a]
  {
    ListedProper(c, home, listed, ex);
    RemoveReady(c, heads, listed, rank, stamp, b);
    RemoveLists(c, heads, listed, rank, stamp, b);
    RemoveStep(c, home, heads, listed, rank, stamp, b);
    var c' := RemoveCells(c, b);
    PhysFrame(c, c', home);
    HeadersSame(c, c', home, ex + gap);
    assert ListedAt(c, home, listed, ex, b);
    forall a: Addr {:trigger ListedAt(c', home, listed - {b}, ex + {b}, a)}
      ensures ListedAt(c', home, listed - {b}, ex + {b}, a)
    {
      assert ListedAt(c, home, listed, ex, a);
    }
    forall a: Addr {:trigger UsedSameAt(c, home, c', home, a)} | a != 0 ensures UsedSameAt(c, home, c', home, a) {
      assert ListedAt(c, home, listed, ex, a);
      if IsUsed(c, home, a) { RemoveUsed(c, home, heads, listed, rank, stamp, b, a); }
    }
    forall a {:trigger NextUsed(c', a)} | IsFree(c', home, a) && a !in ex + {b} + gap ensures NextUsed(c', a) {}
  }

  lemma InsertStage(c: Cells, home: Homes, heads: Heads, listed: set<Addr>, rank: Ranks, stamp: nat, ex: set<Addr>,
        gap: set<Addr>, b: Addr)
    requires Consistent(c, home, heads, listed, rank, stamp, ex, gap) && b in ex && IsFree(c, home, b) && NextUsed(c, b)
    requires b + HEADER in c
    ensures CanInsert(c, heads, listed, rank, stamp, b) && HeadOk(c, heads, listed, ClassOf(c[b].size))
    ensures
      var k := ClassOf(c[b].size);
      var c' := InsertCells(c, b, heads[k]);
      && Consistent(c', home, heads[k := b], listed + {b}, rank[b := stamp], stamp + 1, ex - {b}, gap)
      && UsedSame(c, home, c', home, 0) && c'.Keys == c.Keys
      && (forall a | a in home :: a in c && c'[a] == c[a])
  {
    ListedProper(c, home, listed, ex);
    ProperSize(c, home, b);
    assert ListedAt(c, home, listed, ex, b);
    forall a | a in listed ensures Clear(a, b) && Clear(b, a) {
      assert Proper(home, a);
      LinksInside(c, home, a, b);
      LinksInside(c, home, b, a);
    }
    InsertReady(c, heads, listed, rank, stamp, b);
    InsertLists(c, heads, listed, rank, stamp, b);
    InsertStep(c, home, heads, listed, rank, stamp, b);
    var k := ClassOf(c[b].size);
    var c' := InsertCells(c, b, heads[k]);
    PhysFrame(c, c', home);
    CoalescedDrop(c, home, ex + gap, b);
    HeadersSame(c, c', home, ex + gap - {b});
    forall a: Addr {:trigger ListedAt(c', home, listed + {b}, ex - {b}, a)}
      ensures ListedAt(c', home, listed + {b}, ex - {b}, a)
    {
      assert ListedAt(c, home, listed, ex, a);
    }
    forall a: Addr {:trigger UsedSameAt(c, home, c', home, a)} | a != 0 ensures UsedSameAt(c, home, c', home, a) {
      assert ListedAt(c, home, listed, ex, a);
      if IsUsed(c, home, a) { InsertUsed(c, home, heads, listed, rank, stamp, b, a); }
    }
  }

  lemma CoalescedDrop(c: Cells, home: Homes, ex: set<Addr>, b: Addr)
    requires CoalescedBut(c, home, ex) && (IsFree(c, home, b) ==> NextUsed(c, b))
    ensures CoalescedBut(c, home, ex - {b})
  {
  }

  /** a used block may be excepted at no cost */
  lemma ExceptUsed(c: Cells, home: Homes, heads: Heads, listed: set<Addr>, rank: Ranks, stamp: nat, ex: set<Addr>,
        gap: set<Addr>, b: Addr)
    requires Consistent(c, home, heads, listed, rank, stamp, ex, gap) && IsUsed(c, home, b)
    ensures Consistent(c, home, heads, listed, rank, stamp, ex + {b}, gap)
    ensures Consistent(c, home, heads, listed, rank, stamp, ex - {b}, gap)
  {
    forall a: Addr {:trigger ListedAt(c, home, listed, ex + {b}, a)} ensures ListedAt(c, home, listed, ex + {b}, a) {
      assert ListedAt(c, home, listed, ex, a);
    }
    forall a: Addr {:trigger ListedAt(c, home, listed, ex - {b}, a)} ensures ListedAt(c, home, listed, ex - {b}, a) {
      assert ListedAt(c, home, listed, ex, a);
    }
    CoalescedDrop(c, home, ex + gap, b);
  }

  lemma SplitNode(c: Cells, home: Homes, listed: set<Addr>, ex: set<Addr>, b: Addr, need: nat, a: Addr)
    requires CanSplit(c, home, b, need) && ListedBut(c, home, listed, ex) && b in ex && a in listed && a + HEADER in c
    ensures IsHeader(c, b + c[b].size) && SameNode(c, SplitCells(c, b, need), a)
  {
    SplitReady(c, home, b, need);
    assert ListedAt(c, home, listed, ex, a);
    Elsewhere(c, home, a, b);
    LinksInside(c, home, a, b + c[b].size);
  }

  lemma SplitStage(c: Cells, home: Homes, heads: Heads, listed: set<Addr>, rank: Ranks, stamp: nat, ex: set<Addr>,
        gap: set<Addr>, b: Addr, need: nat)
    requires Consistent(c, home, heads, listed, rank, stamp, ex, gap) && b in ex && CanSplit(c, home, b, need)
    ensures IsHeader(c, b + c[b].size)
    ensures
      var c' := SplitCells(c, b, need);
      var home' := home[b + need := home[b]];
      && Consistent(c', home', heads, listed, rank, stamp, ex + {b + need}, gap)
      && UsedSame(c, home, c', home', b) && SameRange(c, c', b + HEADER, b + need)
      && IsFree(c', home', b + need) && Proper(home', b) && c'[b].used == c[b].used && b + need !in home
  {
    SplitReady(c, home, b, need);
    SplitPhys(c, home, b, need);
    SplitUsed(c, home, b, need);
    var t := b + need;
    var c', home' := SplitCells(c, b, need), home[t := home[b]];
    forall a {:trigger SameNode(c, c', a)} | a in listed ensures SameNode(c, c', a) {
      assert NodeOk(c, heads, listed, rank, a);
      SplitNode(c, home, listed, ex, b, need, a);
    }
    ListsFrame(c, c', heads, listed, rank, stamp);
    forall a: Addr {:trigger ListedAt(c', home', listed, ex + {t}, a)}
      ensures ListedAt(c', home', listed, ex + {t}, a)
    {
      assert ListedAt(c, home, listed, ex, a);
    }
    forall a {:trigger NextUsed(c', a)} | IsFree(c', home', a) && a !in ex + {t} + gap ensures NextUsed(c', a) {
      assert BlockOk(c, home, a);
      assert NextUsed(c, a);
    }
  }

  lemma MergeNode(c: Cells, home: Homes, listed: set<Addr>, ex: set<Addr>, b: Addr, a: Addr)
    requires CanMerge(c, home, b) && ListedBut(c, home, listed, ex) && b in ex && a in listed && a + HEADER in c
    ensures IsHeader(c, b + c[b].size) && IsHeader(c, b + c[b].size + c[b + c[b].size].size)
    ensures SameNode(c, MergeCells(c, b), a)
  {
    MergeReady(c, home, b);
    assert ListedAt(c, home, listed, ex, a);
    LinksInside(c, home, a, b);
    var n := b + c[b].size;
    LinksInside(c, home, a, n + c[n].size);
  }

  lemma MergeStage(c: Cells, home: Homes, heads: Heads, listed: set<Addr>, rank: Ranks, stamp: nat, ex: set<Addr>,
        gap: set<Addr>, b: Addr)
    requires Consistent(c, home, heads, listed, rank, stamp, ex, gap) && CanMerge(c, home, b)
    requires b in ex && b + c[b].size in ex && IsFree(c, home, b + c[b].size) && NextUsed(c, b + c[b].size)
    ensures IsHeader(c, b + c[b].size + c[b + c[b].size].size)
    ensures
      var n := b + c[b].size;
      var c' := MergeCells(c, b);
      && Consistent(c', home - {n}, heads, listed, rank, stamp, ex - {n}, gap)
      && UsedSame(c, home, c', home - {n}, b) && SameRange(c, c', b + HEADER, b + c[b].size)
      && Proper(home - {n}, b) && NextUsed(c', b) && c'[b].used == c[b].used
  {
    MergeReady(c, home, b);
    MergePhys(c, home, b);
    MergeUsed(c, home, b);
    var n := b + c[b].size;
    var c', home' := MergeCells(c, b), home - {n};
    forall a {:trigger SameNode(c, c', a)} | a in listed ensures SameNode(c, c', a) {
      assert NodeOk(c, heads, listed, rank, a);
      MergeNode(c, home, listed, ex, b, a);
    }
    ListsFrame(c, c', heads, listed, rank, stamp);
    forall a: Addr {:trigger ListedAt(c', home', listed, ex - {n}, a)}
      ensures ListedAt(c', home', listed, ex - {n}, a)
    {
      assert ListedAt(c, home, listed, ex, a);
    }
    forall a {:trigger NextUsed(c', a)} | IsFree(c', home', a) && a !in ex - {n} + gap ensures NextUsed(c', a) {
      assert BlockOk(c, home, a);
      assert NextUsed(c, a);
    }
  }

  lemma RetagUsed(c: Cells, home: Homes, b: Addr, used: bool)
    requires Phys(c, home) && Proper(home, b) && IsHeader(c, b)
    ensures UsedSame(c, home, Retag(c, b, used), home, b)
    ensures SameRange(c, Retag(c, b, used), b + HEADER, b + c[b].size)
  {
    var c' := Retag(c, b, used);
    forall a: Addr {:trigger UsedSameAt(c, home, c', home, a)} | a != b ensures UsedSameAt(c, home, c', home, a) {
      if a in home { Elsewhere(c, home, b, a); }
    }
  }

  lemma RetagLists(c: Cells, home: Homes, heads: Heads, listed: set<Addr>, rank: Ranks, stamp: nat, b: Addr, used: bool)
    requires Phys(c, home) && Proper(home, b) && IsHeader(c, b) && b !in listed
    requires ListsOk(c, heads, listed, rank, stamp) && AllProper(home, listed)
    ensures ListsOk(Retag(c, b, used), heads, listed, rank, stamp)
  {
    var c' := Retag(c, b, used);
    forall a {:trigger SameNode(c, c', a)} | a in listed ensures SameNode(c, c', a) {
      assert NodeOk(c, heads, listed, rank, a);
      assert Proper(home, a);
      LinksInside(c, home, a, b);
    }
    ListsFrame(c, c', heads, listed, rank, stamp);
  }


  /** marking a block free: it awaits listing, and its left neighbour may now
      have a free neighbour */
  lemma FreeStage(c: Cells, home: Homes, heads: Heads, listed: set<Addr>, rank: Ranks, stamp: nat, b: Addr)
    requires Consistent(c, home, heads, listed, rank, stamp, {}, {}) && IsUsed(c, home, b)
    ensures c[b].prevSize <= b
    ensures Consistent(Retag(c, b, false), home, heads, listed, rank, stamp, {b}, {b - c[b].prevSize})
    ensures UsedSame(c, home, Retag(c, b, false), home, b)
  {
    ProperSize(c, home, b);
    var p := b - c[b].prevSize;
    assert ListedAt(c, home, listed, {}, b);
    RetagPhys(c, home, b, false);
    RetagUsed(c, home, b, false);
    ListedProper(c, home, listed, {});
    RetagLists(c, home, heads, listed, rank, stamp, b, false);
    var c' := Retag(c, b, false);
    forall a: Addr {:trigger ListedAt(c', home, listed, {b}, a)} ensures ListedAt(c', home, listed, {b}, a) {
      assert ListedAt(c, home, listed, {}, a);
    }
    forall a {:trigger NextUsed(c', a)} | IsFree(c', home, a) && a !in {b} + {p} ensures NextUsed(c', a) {
      assert BlockOk(c, home, a);
      assert NextUsed(c, a);
    }
  }

  /** marking a block used settles it */
  lemma UseStage(c: Cells, home: Homes, heads: Heads, listed: set<Addr>, rank: Ranks, stamp: nat, ex: set<Addr>,
        gap: set<Addr>, b: Addr)
    requires Consistent(c, home, heads, listed, rank, stamp, ex, gap) && b in ex && Proper(home, b) && IsHeader(c, b)
    ensures Consistent(Retag(c, b, true), home, heads, listed, rank, stamp, ex - {b}, gap)
    ensures UsedSame(c, home, Retag(c, b, true), home, b)
    ensures SameRange(c, Retag(c, b, true), b + HEADER, b + c[b].size)
  {
    assert ListedAt(c, home, listed, ex, b);
    RetagPhys(c, home, b, true);
    RetagUsed(c, home, b, true);
    ListedProper(c, home, listed, ex);
    RetagLists(c, home, heads, listed, rank, stamp, b, true);
    var c' := Retag(c, b, true);
    forall a: Addr {:trigger ListedAt(c', home, listed, ex - {b}, a)} ensures ListedAt(c', home, listed, ex - {b}, a) {
      assert ListedAt(c, home, listed, ex, a);
    }
    forall a {:trigger NextUsed(c', a)} | IsFree(c', home, a) && a !in ex - {b} + gap ensures NextUsed(c', a) {
      assert BlockOk(c, home, a);
      assert NextUsed(c, a);
    }
  }

  lemma DropGap(c: Cells, home: Homes, heads: Heads, listed: set<Addr>, rank: Ranks, stamp: nat, ex: set<Addr>, p: Addr)
    requires Consistent(c, home, heads, listed, rank, stamp, ex, {p})
    requires IsFree(c, home, p) ==> NextUsed(c, p)
    ensures Consistent(c, home, heads, listed, rank, stamp, ex, {})
  {
    if p in ex {
      assert ex + {p} == ex + {};
    } else {
      CoalescedDrop(c, home, ex + {p}, p);
      assert ex + {p} - {p} == ex + {};
    }
  }

  // ----- whole regions -----

  lemma ActivateNode(c: Cells, home: Homes, listed: set<Addr>, r: Region, a: Addr)
    requires Phys(c, home) && FreshRegion(home, r) && a in listed && Proper(home, a) && a + HEADER in c
    ensures SameNode(c, ActivateCells(c, r), a)
  {
    ActivateSame(c, home, r, a);
    BlockInRegion(c, home, a);
    assert BlockOk(c, home, a);
    assert RegionsApart(r, home[a]);
  }

  lemma ActivateUsed(c: Cells, home: Homes, r: Region)
    requires Phys(c, home) && FreshRegion(home, r)
    ensures UsedSame(c, home, ActivateCells(c, r), ActivateHomes(home, r), 0)
  {
    var c', home' := ActivateCells(c, r), ActivateHomes(home, r);
    forall a: Addr {:trigger UsedSameAt(c, home, c', home', a)} | a != 0 ensures UsedSameAt(c, home, c', home', a) {
      if a in home {
        ActivateSame(c, home, r, a);
        BlockInRegion(c, home, a);
        assert RegionsApart(r, home[a]);
      }
    }
  }

  /** a new region adds one free block, not yet listed */
  lemma ActivateStage(c: Cells, home: Homes, heads: Heads, listed: set<Addr>, rank: Ranks, stamp: nat, r: Region)
    requires Consistent(c, home, heads, listed, rank, stamp, {}, {}) && FreshRegion(home, r)
    ensures Consistent(ActivateCells(c, r), ActivateHomes(home, r), heads, listed, rank, stamp, {r.First()}, {})
    ensures UsedSame(c, home, ActivateCells(c, r), ActivateHomes(home, r), 0)
    ensures IsFree(ActivateCells(c, r), ActivateHomes(home, r), r.First()) && NextUsed(ActivateCells(c, r), r.First())
  {
    var c', home', f := ActivateCells(c, r), ActivateHomes(home, r), r.First();
    ActivatePhys(c, home, r);
    ActivateUsed(c, home, r);
    ListedProper(c, home, listed, {});
    forall a {:trigger SameNode(c, c', a)} | a in listed ensures SameNode(c, c', a) {
      assert NodeOk(c, heads, listed, rank, a);
      assert Proper(home, a);
      ActivateNode(c, home, listed, r, a);
    }
    ListsFrame(c, c', heads, listed, rank, stamp);
    forall a: Addr {:trigger ListedAt(c', home', listed, {f}, a)} ensures ListedAt(c', home', listed, {f}, a) {
      assert ListedAt(c, home, listed, {}, a);
      if a in home { ActivateSame(c, home, r, a); }
    }
    forall a: Addr {:trigger NextUsed(c', a)} | IsFree(c', home', a) && a !in {f} + {} ensures NextUsed(c', a) {
      ActivateSame(c, home, r, a);
      assert BlockOk(c, home, a);
      assert NextUsed(c, a);
      ActivateSame(c, home, r, a + c[a].size);
    }
  }

  /** in a region whose first block covers it, that block is the only proper one */
  lemma OnlyFirst(c: Cells, home: Homes, r: Region, a: Addr)
    requires Phys(c, home) && r.First() in home && home[r.First()] == r && r.size >= OVERHEAD
    requires IsHeader(c, r.First()) && c[r.First()].size == r.Usable()
    requires Proper(home, a) && home[a] == r
    ensures a == r.First()
  {
    assert BlockOk(c, home, a);
    assert Apart(c, r.First(), a);
  }

  /** a region that is one unlisted free block can be given up */
  lemma DropStage(c: Cells, home: Homes, heads: Heads, listed: set<Addr>, rank: Ranks, stamp: nat, r: Region)
    requires r.size >= OVERHEAD && r.First() in home && home[r.First()] == r
    requires Consistent(c, home, heads, listed, rank, stamp, {r.First()}, {})
    requires IsFree(c, home, r.First()) && c[r.First()].size == r.Usable()
    ensures Consistent(c, DropRegion(home, r), heads, listed, rank, stamp, {}, {})
    ensures UsedSame(c, home, c, DropRegion(home, r), 0)
  {
    var home', f := DropRegion(home, r), r.First();
    DropPhys(c, home, r);
    forall a: Addr {:trigger ListedAt(c, home', listed, {}, a)} ensures ListedAt(c, home', listed, {}, a) {
      assert ListedAt(c, home, listed, {f}, a);
      if Proper(home, a) && home[a] == r { OnlyFirst(c, home, r, a); }
    }
    forall a: Addr {:trigger UsedSameAt(c, home, c, home', a)} | a != 0 ensures UsedSameAt(c, home, c, home', a) {
      if Proper(home, a) && home[a] == r { OnlyFirst(c, home, r, a); }
    }
    forall a {:trigger NextUsed(c, a)} | IsFree(c, home', a) && a !in {} + {} ensures NextUsed(c, a) {
      if home[a] == r { OnlyFirst(c, home, r, a); }
    }
  }

  // ----- free_block updates the right neighbour's tag only at the end -----

  /** c is e but for the previous-size tag of block x, not yet written */
  ghost predicate Lag(c: Cells, e: Cells, x: Addr) {
    IsHeader(c, x) && IsHeader(e, x) && c[x].size == e[x].size && c[x].used == e[x].used && e == c[x := e[x]]
  }

  lemma LagAt(c: Cells, e: Cells, x: Addr, a: Addr)
    requires Lag(c, e, x)
    ensures a in c <==> a in e
    ensures a in c && a != x ==> c[a] == e[a]
    ensures IsHeader(c, a) <==> IsHeader(e, a)
    ensures IsHeader(c, a) ==> c[a].size == e[a].size && c[a].used == e[a].used
  {
  }

  lemma LagLists(c: Cells, e: Cells, home: Homes, heads: Heads, listed: set<Addr>, rank: Ranks, stamp: nat, x: Addr)
    requires Lag(c, e, x) && x in home && Phys(e, home) && AllProper(home, listed)
    requires ListsOk(e, heads, listed, rank, stamp)
    ensures ListsOk(c, heads, listed, rank, stamp)
  {
    forall a {:trigger SameNode(e, c, a)} | a in listed ensures SameNode(e, c, a) {
      assert NodeOk(e, heads, listed, rank, a);
      assert Proper(home, a);
      LinksInside(e, home, a, x);
    }
    ListsFrame(e, c, heads, listed, rank, stamp);
  }

  ghost predicate Unlinkable(c: Cells, p: Addr) {
    IsHeader(c, p) && IsLinks(c, p + HEADER) &&
    var l := c[p + HEADER];
    (l.prev != 0 ==> IsLinks(c, l.prev + HEADER)) && (l.next != 0 ==> IsLinks(c, l.next + HEADER))
  }

  lemma LagUnlink(c: Cells, e: Cells, heads: Heads, x: Addr, p: Addr)
    requires Lag(c, e, x) && Unlinkable(e, p)
    requires p + HEADER != x
    requires e[p + HEADER].prev + HEADER != x && e[p + HEADER].next + HEADER != x
    ensures Unlinkable(c, p) && Lag(RemoveCells(c, p), RemoveCells(e, p), x)
    ensures RemoveHeads(c, heads, p) == RemoveHeads(e, heads, p)
  {
    assert RemoveCells(e, p) == RemoveCells(c, p)[x := RemoveCells(e, p)[x]];
  }

  lemma LagRemove(c: Cells, e: Cells, home: Homes, heads: Heads, listed: set<Addr>, rank: Ranks, stamp: nat, x: Addr,
        p: Addr)
    requires Lag(c, e, x) && x in home && Phys(e, home) && AllProper(home, listed)
    requires CanRemove(e, heads, listed, rank, stamp, p)
    ensures Unlinkable(c, p) && Unlinkable(e, p)
    ensures Lag(RemoveCells(c, p), RemoveCells(e, p), x)
    ensures RemoveHeads(c, heads, p) == RemoveHeads(e, heads, p)
  {
    RemoveReady(e, heads, listed, rank, stamp, p);
    var l := e[p + HEADER];
    BlockInRegion(e, home, x);
    assert BlockOk(e, home, x);
    assert Proper(home, p);
    LinksInside(e, home, p, x);
    if l.prev != 0 { assert Proper(home, l.prev); LinksInside(e, home, l.prev, x); }
    if l.next != 0 { assert Proper(home, l.next); LinksInside(e, home, l.next, x); }
    LagUnlink(c, e, heads, x, p);
  }

  /** joining p with its neighbour, the tag after them still unwritten */
  lemma LagMerge(c: Cells, e: Cells, home: Homes, p: Addr)
    requires CanMerge(e, home, p) && IsHeader(e, p + e[p].size)
    requires IsHeader(e, p + e[p].size + e[p + e[p].size].size)
    requires Lag(c, e, p + e[p].size + e[p + e[p].size].size)
    ensures IsHeader(c, p) && c[p].used == e[p].used
    ensures
      var n := p + e[p].size;
      Lag(c[p := Header(e[p].size + e[n].size, e[p].used, e[p].prevSize)], MergeCells(e, p), n + e[n].size)
  {
    MergeReady(e, home, p);
    var n := p + e[p].size;
    var x := n + e[n].size;
    var total := e[p].size + e[n].size;
    var c', e' := c[p := Header(total, e[p].used, e[p].prevSize)], MergeCells(e, p);
    assert e' == c'[x := e'[x]];
  }

  /** absorbing the free left neighbour p of b, in the memory e that lags behind */
  lemma LeftStage(c: Cells, e: Cells, home: Homes, heads: Heads, listed: set<Addr>, rank: Ranks, stamp: nat, b: Addr,
        p: Addr, x: Addr)
    requires Lag(c, e, x) && x in home && Consistent(e, home, heads, listed, rank, stamp, {b}, {p})
    requires IsFree(e, home, b) && NextUsed(e, b) && x == b + e[b].size
    requires p in home && IsHeader(e, p) && !e[p].used && p + e[p].size == b
    ensures ListsOk(c, heads, listed, rank, stamp) && p in listed && Unlinkable(c, p) && Unlinkable(e, p)
    ensures Proper(home, b)
    ensures
      var e1 := RemoveCells(e, p);
      && IsHeader(e1, p) && e1[p] == e[p] && IsHeader(e1, b) && e1[b] == e[b] && IsHeader(e1, x)
      && var e2 := MergeCells(e1, p);
      && Lag(RemoveCells(c, p)[p := Header(e[p].size + e[b].size, e[p].used, e[p].prevSize)], e2, x)
      && Consistent(e2, home - {b}, RemoveHeads(c, heads, p), listed - {p}, rank, stamp, {p}, {p})
      && IsFree(e2, home - {b}, p) && NextUsed(e2, p)
      && UsedSame(e, home, e2, home - {b}, p)
  {
    FreeIsProper(e, home, p);
    assert ListedAt(e, home, listed, {b}, p);
    ListedProper(e, home, listed, {b});
    ZeroNotUsed(e, home);
    RemoveStage(e, home, heads, listed, rank, stamp, {b}, {p}, p);
    LagRemove(c, e, home, heads, listed, rank, stamp, x, p);
    LagLists(c, e, home, heads, listed, rank, stamp, x);
    var e1 := RemoveCells(e, p);
    UsedSameShift(e, home, e1, home, 0, p);
    MergeStage(e1, home, RemoveHeads(e, heads, p), listed - {p}, rank, stamp, {b} + {p}, {p}, p);
    LagMerge(RemoveCells(c, p), e1, home, p);
    assert {b} + {p} - {b} == {p};
    UsedSameTrans(e, home, e1, home, MergeCells(e1, p), home - {b}, p);
  }

  /** a used block takes over its free right neighbour n */
  lemma TakeStage(c: Cells, home: Homes, heads: Heads, listed: set<Addr>, rank: Ranks, stamp: nat, b: Addr, n: Addr)
    requires Consistent(c, home, heads, listed, rank, stamp, {}, {}) && IsUsed(c, home, b)
    requires n == b + c[b].size && n in home && IsHeader(c, n) && !c[n].used
    ensures n in listed && Unlinkable(c, n) && Proper(home, n)
    ensures
      var c1 := RemoveCells(c, n);
      && c1.Keys == c.Keys && IsHeader(c1, b) && c1[b] == c[b] && IsHeader(c1, n) && c1[n] == c[n]
      && n + c[n].size in home && IsHeader(c1, n + c[n].size)
      && var c2 := MergeCells(c1, b);
      && Consistent(c2, home - {n}, RemoveHeads(c, heads, n), listed - {n}, rank, stamp, {}, {})
      && UsedSame(c, home, c2, home - {n}, b) && SameRange(c, c2, b + HEADER, b + c[b].size)
      && IsUsed(c2, home - {n}, b) && c2[b].size == c[b].size + c[n].size
  {
    ZeroNotUsed(c, home);
    FreeIsProper(c, home, n);
    assert ListedAt(c, home, listed, {}, n);
    assert NextUsed(c, n);
    ProperSize(c, home, n);
    RemoveStage(c, home, heads, listed, rank, stamp, {}, {}, n);
    assert {} + {n} == {n};
    var c1, heads1 := RemoveCells(c, n), RemoveHeads(c, heads, n);
    assert UsedSameAt(c, home, c1, home, b);
    UsedSameShift(c, home, c1, home, 0, b);
    ExceptUsed(c1, home, heads1, listed - {n}, rank, stamp, {n}, {}, b);
    MergeStage(c1, home, heads1, listed - {n}, rank, stamp, {n} + {b}, {}, b);
    var c2 := MergeCells(c1, b);
    assert {n} + {b} - {n} == {b};
    ExceptUsed(c2, home - {n}, heads1, listed - {n}, rank, stamp, {b}, {}, b);
    assert {b} - {b} == {};
    UsedSameTrans(c, home, c1, home, c2, home - {n}, b);
    SameRangeTrans(c, c1, c2, b + HEADER, b + c[b].size);
  }
}
