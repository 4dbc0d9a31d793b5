/** What the allocator's memory must look like: the physical tiling of every
    region by blocks with boundary tags. Memory is a map from 16-byte granules
    to what was last stored there: a block header, the links of a free block,
    or sixteen bytes of user data. */
module TlsfHeap {
  import opened TlsfMapping

  type Addr = nat

  const PAGE: nat := 4096
  const META: nat := 48
  const OVERHEAD: nat := 80

  /** struct tlsf_block (the used bit kept apart from the size it is packed
      with), struct tlsf_free_links, and plain bytes */
  datatype Cell =
    | Header(size: nat, used: bool, prevSize: nat)
    | Links(next: Addr, prev: Addr)
    | Data(bytes: seq<nat>)

  type Cells = map<Addr, Cell>

  /** struct tlsf_region: base and size determine the other fields */
  datatype Region = Region(base: Addr, size: nat) {
    predicate Shaped()
    {
      base > 0 && base % ALIGN == 0 && size % PAGE == 0 && OVERHEAD + MIN_BLOCK <= size <= MAX_BLOCK
    }
    function Start(): Addr { base + META }
    function First(): Addr { base + META + HEADER }
    function End(): Addr requires size >= HEADER { base + size - HEADER }
    function Usable(): nat requires size >= OVERHEAD { size - OVERHEAD }
  }

  /** home maps the address of every physical block to its region */
  type Homes = map<Addr, Region>

  ghost predicate IsHeader(c: Cells, a: Addr) { a in c && c[a].Header? }

  ghost predicate NextOk(c: Cells, home: Homes, a: Addr)
    requires a in home && IsHeader(c, a)
  {
    var n := a + c[a].size;
    n in home && home[n] == home[a] && IsHeader(c, n) && c[n].prevSize == c[a].size
  }

  ghost predicate PrevOk(c: Cells, home: Homes, a: Addr)
    requires a in home && IsHeader(c, a)
  {
    c[a].prevSize <= a &&
    var p := a - c[a].prevSize;
    p in home && home[p] == home[a] && IsHeader(c, p) && c[p].size == c[a].prevSize
  }

  ghost predicate BlockOk(c: Cells, home: Homes, a: Addr)
    requires a in home
  {
    var r := home[a];
    && IsHeader(c, a) && OVERHEAD <= r.size <= MAX_BLOCK
    && r.Start() <= a <= r.End()
    && (a == r.Start() ==> c[a] == Header(HEADER, true, 0))
    && (a == r.End() ==> c[a].size == HEADER && c[a].used)
    && (r.Start() < a < r.End() ==> c[a].size >= MIN_BLOCK && r.First() <= a && a + c[a].size <= r.End())
    && (a != r.End() ==> NextOk(c, home, a))
    && (a != r.Start() ==> PrevOk(c, home, a))
  }

  ghost predicate Tiled(c: Cells, home: Homes) {
    forall a {:trigger BlockOk(c, home, a)} | a in home :: BlockOk(c, home, a)
  }

  ghost predicate Apart(c: Cells, a: Addr, b: Addr) {
    a < b ==> IsHeader(c, a) && a + c[a].size <= b
  }

  /** blocks never overlap */
  ghost predicate Disjoint(c: Cells, home: Homes) {
    forall a, b {:trigger Apart(c, a, b)} | a in home && b in home :: Apart(c, a, b)
  }

  ghost predicate AlignedAt(c: Cells, a: Addr) {
    a > 0 && a % ALIGN == 0 && IsHeader(c, a) && c[a].size % ALIGN == 0
  }

  ghost predicate Aligned(c: Cells, home: Homes) {
    forall a {:trigger AlignedAt(c, a)} | a in home :: AlignedAt(c, a)
  }

  /** a block that is neither sentinel of its region */
  ghost predicate Proper(home: Homes, a: Addr) {
    a in home && home[a].size >= OVERHEAD && home[a].Start() < a < home[a].End()
  }

  ghost predicate Phys(c: Cells, home: Homes) {
    Tiled(c, home) && Disjoint(c, home) && Aligned(c, home)
  }

  ghost predicate IsFree(c: Cells, home: Homes, a: Addr) {
    Proper(home, a) && IsHeader(c, a) && !c[a].used
  }

  ghost predicate NextUsed(c: Cells, a: Addr) {
    IsHeader(c, a) && IsHeader(c, a + c[a].size) && c[a + c[a].size].used
  }

  /** no free block outside ex has a free right neighbour */
  ghost predicate CoalescedBut(c: Cells, home: Homes, ex: set<Addr>) {
    forall a {:trigger NextUsed(c, a)} | IsFree(c, home, a) && a !in ex :: NextUsed(c, a)
  }

  // ----- joining a block with its right neighbour -----

  function MergeCells(c: Cells, b: Addr): Cells
    requires IsHeader(c, b) && IsHeader(c, b + c[b].size)
    requires IsHeader(c, b + c[b].size + c[b + c[b].size].size)
  {
    var n := b + c[b].size;
    var total := c[b].size + c[n].size;
    var after := n + c[n].size;
    c[b := c[b].(size := total)][after := c[after].(prevSize := total)]
  }

  ghost predicate CanMerge(c: Cells, home: Homes, b: Addr) {
    Phys(c, home) && Proper(home, b) && IsHeader(c, b) && Proper(home, b + c[b].size)
  }

  lemma MergeReady(c: Cells, home: Homes, b: Addr)
    requires CanMerge(c, home, b)
    ensures var n := b + c[b].size; IsHeader(c, n) && var after := n + c[n].size;
      b < n < after && n in home && after in home && IsHeader(c, after) && home[after] == home[b] == home[n]
      && BlockOk(c, home, b) && BlockOk(c, home, n) && BlockOk(c, home, after)
  {
    assert BlockOk(c, home, b);
    var n := b + c[b].size;
    assert BlockOk(c, home, n);
    assert BlockOk(c, home, n + c[n].size);
  }

  lemma MergeBlock(c: Cells, home: Homes, b: Addr, a: Addr)
    requires CanMerge(c, home, b) && a in home && a != b + c[b].size
    ensures IsHeader(c, b + c[b].size) && IsHeader(c, b + c[b].size + c[b + c[b].size].size)
    ensures BlockOk(MergeCells(c, b), home - {b + c[b].size}, a)
  {
    MergeReady(c, home, b);
    var n := b + c[b].size;
    assert BlockOk(c, home, a);
    if a != home[a].End() { assert a + c[a].size == n ==> a == b; }
    if a != home[a].Start() { assert a - c[a].prevSize == n ==> a == n + c[n].size; }
  }

  lemma MergeTiled(c: Cells, home: Homes, b: Addr)
    requires CanMerge(c, home, b)
    ensures IsHeader(c, b + c[b].size) && IsHeader(c, b + c[b].size + c[b + c[b].size].size)
    ensures Tiled(MergeCells(c, b), home - {b + c[b].size})
  {
    MergeReady(c, home, b);
    var c', home' := MergeCells(c, b), home - {b + c[b].size};
    forall a {:trigger BlockOk(c', home', a)} | a in home' ensures BlockOk(c', home', a) {
      MergeBlock(c, home, b, a);
    }
  }

  lemma MergeDisjoint(c: Cells, home: Homes, b: Addr)
    requires CanMerge(c, home, b)
    ensures IsHeader(c, b + c[b].size) && IsHeader(c, b + c[b].size + c[b + c[b].size].size)
    ensures Disjoint(MergeCells(c, b), home - {b + c[b].size})
  {
    MergeReady(c, home, b);
    var n := b + c[b].size;
    var c', home' := MergeCells(c, b), home - {n};
    forall x, y {:trigger Apart(c', x, y)} | x in home' && y in home' ensures Apart(c', x, y) {
      assert Apart(c, x, y) && Apart(c, n, y);
    }
  }

  // ----- cutting a block in two -----

  function SplitCells(c: Cells, b: Addr, need: nat): Cells
    requires IsHeader(c, b) && need <= c[b].size && IsHeader(c, b + c[b].size)
  {
    var n := b + c[b].size;
    var rest := c[b].size - need;
    c[b := c[b].(size := need)][b + need := Header(rest, false, need)][n := c[n].(prevSize := rest)]
  }

  ghost predicate CanSplit(c: Cells, home: Homes, b: Addr, need: nat) {
    Phys(c, home) && Proper(home, b) && IsHeader(c, b) &&
    need >= MIN_BLOCK && need % ALIGN == 0 && c[b].size >= need + MIN_BLOCK
  }

  lemma SplitReady(c: Cells, home: Homes, b: Addr, need: nat)
    requires CanSplit(c, home, b, need)
    ensures var n := b + c[b].size;
      n in home && IsHeader(c, n) && home[n] == home[b] && b + need !in home && n <= home[b].End()
      && BlockOk(c, home, b) && BlockOk(c, home, n)
  {
    assert BlockOk(c, home, b);
    assert BlockOk(c, home, b + c[b].size);
    assert b + need in home ==> Apart(c, b, b + need);
  }

  lemma SplitBlock(c: Cells, home: Homes, b: Addr, need: nat, a: Addr)
    requires CanSplit(c, home, b, need) && a in home
    ensures IsHeader(c, b + c[b].size)
    ensures BlockOk(SplitCells(c, b, need), home[b + need := home[b]], a)
  {
    SplitReady(c, home, b, need);
    var n := b + c[b].size;
    assert BlockOk(c, home, a);
    if a != home[a].End() { assert a + c[a].size == n ==> a == b; }
    if a != home[a].Start() { assert a - c[a].prevSize == b ==> a == n; }
  }

  lemma SplitTiled(c: Cells, home: Homes, b: Addr, need: nat)
    requires CanSplit(c, home, b, need)
    ensures IsHeader(c, b + c[b].size)
    ensures Tiled(SplitCells(c, b, need), home[b + need := home[b]])
  {
    SplitReady(c, home, b, need);
    var c', home' := SplitCells(c, b, need), home[b + need := home[b]];
    forall a {:trigger BlockOk(c', home', a)} | a in home' ensures BlockOk(c', home', a) {
      if a in home { SplitBlock(c, home, b, need, a); }
    }
  }

  lemma SplitDisjoint(c: Cells, home: Homes, b: Addr, need: nat)
    requires CanSplit(c, home, b, need)
    ensures IsHeader(c, b + c[b].size)
    ensures Disjoint(SplitCells(c, b, need), home[b + need := home[b]])
  {
    SplitReady(c, home, b, need);
    var c', home' := SplitCells(c, b, need), home[b + need := home[b]];
    forall x, y {:trigger Apart(c', x, y)} | x in home' && y in home' ensures Apart(c', x, y) {
      assert x in home ==> Apart(c, x, b) && Apart(c, b, x);
      assert y in home ==> Apart(c, b, y);
      assert x in home && y in home ==> Apart(c, x, y);
    }
  }

  /** Joining neighbours keeps the tiling. */
  lemma MergePhys(c: Cells, home: Homes, b: Addr)
    requires CanMerge(c, home, b)
    ensures IsHeader(c, b + c[b].size) && IsHeader(c, b + c[b].size + c[b + c[b].size].size)
    ensures Phys(MergeCells(c, b), home - {b + c[b].size})
  {
    MergeTiled(c, home, b);
    MergeDisjoint(c, home, b);
    var n := b + c[b].size;
    var c', home' := MergeCells(c, b), home - {n};
    forall a {:trigger AlignedAt(c', a)} | a in home' ensures AlignedAt(c', a) {
      assert AlignedAt(c, a) && AlignedAt(c, n);
    }
  }

  /** Cutting a block keeps the tiling. */
  lemma SplitPhys(c: Cells, home: Homes, b: Addr, need: nat)
    requires CanSplit(c, home, b, need)
    ensures IsHeader(c, b + c[b].size)
    ensures Phys(SplitCells(c, b, need), home[b + need := home[b]])
  {
    SplitTiled(c, home, b, need);
    SplitDisjoint(c, home, b, need);
    var c', home' := SplitCells(c, b, need), home[b + need := home[b]];
    forall a {:trigger AlignedAt(c', a)} | a in home' ensures AlignedAt(c', a) {
      assert AlignedAt(c, b);
      if a != b + need { assert AlignedAt(c, a); }
    }
  }

  /** The tiling depends on headers only. */
  lemma PhysFrame(c: Cells, c': Cells, home: Homes)
    requires Phys(c, home)
    requires forall a | a in home :: a in c' && a in c && c'[a] == c[a]
    ensures Phys(c', home)
  {
    forall a {:trigger BlockOk(c', home, a)} | a in home ensures BlockOk(c', home, a) { assert BlockOk(c, home, a); }
    forall a, b {:trigger Apart(c', a, b)} | a in home && b in home ensures Apart(c', a, b) { assert Apart(c, a, b); }
    forall a {:trigger AlignedAt(c', a)} | a in home ensures AlignedAt(c', a) { assert AlignedAt(c, a); }
  }

  function Retag(c: Cells, b: Addr, used: bool): Cells
    requires b in c && c[b].Header?
  {
    c[b := Header(c[b].size, used, c[b].prevSize)]
  }

  lemma RetagBlock(c: Cells, home: Homes, b: Addr, used: bool, a: Addr)
    requires Phys(c, home) && Proper(home, b) && IsHeader(c, b) && a in home
    ensures BlockOk(Retag(c, b, used), home, a)
  {
    assert BlockOk(c, home, a);
  }

  lemma RetagPhys(c: Cells, home: Homes, b: Addr, used: bool)
    requires Phys(c, home) && Proper(home, b) && IsHeader(c, b)
    ensures Phys(Retag(c, b, used), home)
  {
    var c' := Retag(c, b, used);
    forall a {:trigger BlockOk(c', home, a)} | a in home
      ensures BlockOk(c', home, a)
    {
      RetagBlock(c, home, b, used, a);
    }
    forall x, y {:trigger Apart(c', x, y)} | x in home && y in home ensures Apart(c', x, y) {
      assert Apart(c, x, y);
    }
    forall a {:trigger AlignedAt(c', a)} | a in home ensures AlignedAt(c', a) {
      assert AlignedAt(c, a);
    }
  }

  /** the links of a proper block lie strictly inside it */
  lemma LinksInside(c: Cells, home: Homes, x: Addr, a: Addr)
    requires Phys(c, home) && Proper(home, x) && a in home
    ensures x + HEADER != a
  {
    assert BlockOk(c, home, x);
    assert Apart(c, x, a);
  }

  // ----- whole regions -----

  ghost predicate InRegion(r: Region, x: Addr) { r.base <= x < r.base + r.size }

  ghost predicate RegionsApart(r: Region, s: Region) {
    r.base + r.size <= s.base || s.base + s.size <= r.base
  }

  /** blocks stay inside their region */
  lemma BlockInRegion(c: Cells, home: Homes, a: Addr)
    requires Phys(c, home) && a in home
    ensures IsHeader(c, a) && home[a].base <= a && a + c[a].size <= home[a].base + home[a].size
  {
    assert BlockOk(c, home, a);
  }

  function ActivateCells(c: Cells, r: Region): Cells
    requires r.size >= OVERHEAD
  {
    c[r.Start() := Header(HEADER, true, 0)]
     [r.First() := Header(r.Usable(), false, HEADER)]
     [r.End() := Header(HEADER, true, r.Usable())]
  }

  function ActivateHomes(home: Homes, r: Region): Homes
    requires r.size >= OVERHEAD
  {
    home[r.Start() := r][r.First() := r][r.End() := r]
  }

  ghost predicate FreshRegion(home: Homes, r: Region) {
    r.Shaped() && forall a {:trigger home[a]} | a in home :: RegionsApart(r, home[a])
  }

  lemma ActivateSame(c: Cells, home: Homes, r: Region, a: Addr)
    requires Phys(c, home) && FreshRegion(home, r) && a in home
    ensures IsHeader(c, a) && !InRegion(r, a)
    ensures a in ActivateCells(c, r) && ActivateCells(c, r)[a] == c[a]
  {
    BlockInRegion(c, home, a);
    assert BlockOk(c, home, a);
    assert RegionsApart(r, home[a]);
  }

  lemma ActivateOld(c: Cells, home: Homes, r: Region, a: Addr)
    requires Phys(c, home) && FreshRegion(home, r) && a in home
    ensures ActivateHomes(home, r)[a] == home[a]
    ensures BlockOk(ActivateCells(c, r), ActivateHomes(home, r), a)
  {
    ActivateSame(c, home, r, a);
    assert BlockOk(c, home, a);
    if a != home[a].End() { ActivateSame(c, home, r, a + c[a].size); }
    if a != home[a].Start() { ActivateSame(c, home, r, a - c[a].prevSize); }
  }

  lemma ActivateTiled(c: Cells, home: Homes, r: Region)
    requires Phys(c, home) && FreshRegion(home, r)
    ensures Tiled(ActivateCells(c, r), ActivateHomes(home, r))
  {
    var c', home' := ActivateCells(c, r), ActivateHomes(home, r);
    forall a {:trigger BlockOk(c', home', a)} | a in home' ensures BlockOk(c', home', a) {
      if a in home {
        ActivateOld(c, home, r, a);
      }
    }
  }

  /** A new region is one free block between two sentinels. */
  lemma ActivatePhys(c: Cells, home: Homes, r: Region)
    requires Phys(c, home) && FreshRegion(home, r)
    ensures Phys(ActivateCells(c, r), ActivateHomes(home, r))
  {
    ActivateTiled(c, home, r);
    var c', home' := ActivateCells(c, r), ActivateHomes(home, r);
    forall x, y {:trigger Apart(c', x, y)} | x in home' && y in home' ensures Apart(c', x, y) {
      if x in home { ActivateSame(c, home, r, x); BlockInRegion(c, home, x); }
      if y in home { ActivateSame(c, home, r, y); BlockInRegion(c, home, y); }
      if x in home && y in home { assert Apart(c, x, y); }
      if x in home && y !in home { assert RegionsApart(r, home[x]); }
    }
    forall a {:trigger AlignedAt(c', a)} | a in home' ensures AlignedAt(c', a) {
      if a in home { ActivateSame(c, home, r, a); assert AlignedAt(c, a); }
    }
  }

  function DropRegion(home: Homes, r: Region): Homes {
    map a | a in home && home[a] != r :: home[a]
  }

  /** Giving up a region leaves the tiling of the others. */
  lemma DropPhys(c: Cells, home: Homes, r: Region)
    requires Phys(c, home)
    ensures Phys(c, DropRegion(home, r))
  {
    var home' := DropRegion(home, r);
    forall a {:trigger BlockOk(c, home', a)} | a in home' ensures BlockOk(c, home', a) { assert BlockOk(c, home, a); }
    forall x, y {:trigger Apart(c, x, y)} | x in home' && y in home' ensures Apart(c, x, y) { assert Apart(c, x, y); }
    forall a {:trigger AlignedAt(c, a)} | a in home' ensures AlignedAt(c, a) { assert AlignedAt(c, a); }
  }
}
