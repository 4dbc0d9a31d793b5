/** Regions: which are mapped, active or cached, the memory behind them, and
    when an active region still holds an allocation. */
module TlsfRegions {
  import opened Options
  import opened TlsfMapping
  import opened TlsfHeap
  import opened TlsfLists
  import opened TlsfSteps

  const REGION_MIN: nat := 64 * 1024
  const CACHE_MAX: nat := 4
  const CACHE_BYTES: nat := 4 * 1024 * 1024

  /** every granule of the region is addressable */
  ghost predicate Backed(c: Cells, r: Region) {
    forall g: Addr {:trigger g in c} | InRegion(r, g) && g % ALIGN == 0 :: g in c
  }

  /** munmap: the region's memory is gone */
  function Unmap(c: Cells, r: Region): Cells {
    map g | g in c && !(r.base <= g < r.base + r.size) :: c[g]
  }

  function SumSize(rs: seq<Region>): nat {
    if rs == [] then 0 else rs[0].size + SumSize(rs[1..])
  }

  lemma {:induction false} SumSizeRemove(rs: seq<Region>, i: nat)
    requires i < |rs|
    ensures SumSize(rs) == rs[i].size + SumSize(rs[..i] + rs[i + 1..])
  {
    if i == 0 {
      assert rs[..0] + rs[1..] == rs[1..];
    } else {
      SumSizeRemove(rs[1..], i - 1);
      assert rs[1..][..i - 1] + rs[1..][i..] == (rs[..i] + rs[i + 1..])[1..];
    }
  }

  /** active regions are exactly the ones holding blocks */
  ghost predicate Covered(home: Homes, regions: seq<Region>) {
    && (forall a {:trigger HomeIn(home, regions, a)} | a in home :: HomeIn(home, regions, a))
    && (forall r {:trigger StartIn(home, r)} | r in regions :: StartIn(home, r))
  }

  ghost predicate HomeIn(home: Homes, regions: seq<Region>, a: Addr) { a in home && home[a] in regions }

  ghost predicate StartIn(home: Homes, r: Region) { r.size >= OVERHEAD && r.Start() in home && home[r.Start()] == r }

  /** regions as the kernel sees them are pairwise apart */
  ghost predicate AllApart(mapped: set<Region>) {
    forall r, s {:trigger RegionsApart(r, s)} | r in mapped && s in mapped && r != s :: RegionsApart(r, s)
  }

  ghost predicate Usable(c: Cells, mapped: set<Region>) {
    forall r {:trigger r.Shaped()} | r in mapped :: r.Shaped() && Backed(c, r)
  }

  /** some allocation lives in the region */
  ghost predicate Busy(c: Cells, home: Homes, r: Region) {
    exists a :: IsUsed(c, home, a) && home[a] == r
  }

  ghost predicate AllBusy(c: Cells, home: Homes, regions: seq<Region>) {
    forall r {:trigger Busy(c, home, r)} | r in regions :: Busy(c, home, r)
  }

  lemma CoveredAdd(home: Homes, regions: seq<Region>, t: Addr, s: Region)
    requires Covered(home, regions) && t !in home && s in regions
    ensures Covered(home[t := s], regions)
  {
    var home' := home[t := s];
    forall a {:trigger HomeIn(home', regions, a)} | a in home' ensures HomeIn(home', regions, a) {
      if a != t { assert HomeIn(home, regions, a); }
    }
    forall r {:trigger StartIn(home', r)} | r in regions ensures StartIn(home', r) {
      assert StartIn(home, r);
    }
  }

  lemma CoveredRemove(home: Homes, regions: seq<Region>, n: Addr)
    requires Covered(home, regions) && Proper(home, n)
    ensures Covered(home - {n}, regions)
  {
    var home' := home - {n};
    forall a {:trigger HomeIn(home', regions, a)} | a in home' ensures HomeIn(home', regions, a) {
      assert HomeIn(home, regions, a);
    }
    forall r {:trigger StartIn(home', r)} | r in regions ensures StartIn(home', r) {
      assert StartIn(home, r);
    }
  }

  /** every mapped region is accounted for exactly once */
  ghost predicate Accounted(regions: seq<Region>, cache: seq<Region>, extra: multiset<Region>, mapped: set<Region>) {
    multiset(regions) + multiset(cache) + extra == multiset(mapped)
  }

  lemma InOne(regions: seq<Region>, cache: seq<Region>, extra: multiset<Region>, mapped: set<Region>, r: Region)
    requires Accounted(regions, cache, extra, mapped)
    ensures r in mapped <==> r in regions || r in cache || r in extra
    ensures r in regions ==> r !in cache && r !in extra
    ensures r in cache ==> r !in extra
    ensures multiset(regions)[r] <= 1 && multiset(cache)[r] <= 1
  {
    assert (multiset(regions) + multiset(cache) + extra)[r] == multiset(mapped)[r];
    assert r in regions <==> r in multiset(regions);
    assert r in cache <==> r in multiset(cache);
  }

  lemma RemoveAt(rs: seq<Region>, i: nat)
    requires i < |rs|
    ensures multiset(rs[..i] + rs[i + 1..]) == multiset(rs) - multiset{rs[i]}
  {
    var a, b := rs[..i], rs[i + 1..];
    assert rs == a + ([rs[i]] + b);
    assert multiset(a + ([rs[i]] + b)) == multiset(a) + multiset([rs[i]] + b);
    assert multiset([rs[i]] + b) == multiset{rs[i]} + multiset(b);
  }

  /** taking one region out of the cache leaves every region accounted for and the counters right */
  lemma CacheTaken(regions: seq<Region>, cache: seq<Region>, mapped: set<Region>, k: nat)
    requires Accounted(regions, cache, multiset{}, mapped) && k < |cache|
    ensures Accounted(regions, cache[..k] + cache[k + 1..], multiset{cache[k]}, mapped)
    ensures SumSize(cache[..k] + cache[k + 1..]) == SumSize(cache) - cache[k].size
    ensures multiset(cache[..k] + cache[k + 1..]) + multiset{cache[k]} == multiset(cache)
  {
    RemoveAt(cache, k);
    SumSizeRemove(cache, k);
    var rest := cache[..k] + cache[k + 1..];
    assert cache[k] in multiset(cache);
    assert multiset(rest) + multiset{cache[k]} == multiset(cache);
    assert multiset(regions) + multiset(cache) + multiset{} ==
      multiset(regions) + (multiset(rest) + multiset{cache[k]});
  }

  lemma CoveredDrop(home: Homes, regions: seq<Region>, i: nat, cache: seq<Region>, mapped: set<Region>)
    requires Covered(home, regions) && i < |regions| && Accounted(regions, cache, multiset{}, mapped)
    ensures Covered(DropRegion(home, regions[i]), regions[..i] + regions[i + 1..])
  {
    var r, rest := regions[i], regions[..i] + regions[i + 1..];
    var home' := DropRegion(home, r);
    RemoveAt(regions, i);
    forall a {:trigger HomeIn(home', rest, a)} | a in home' ensures HomeIn(home', rest, a) {
      assert HomeIn(home, regions, a);
      assert home[a] in multiset(regions) && home[a] in multiset(rest);
    }
    forall s {:trigger StartIn(home', s)} | s in rest ensures StartIn(home', s) {
      assert s in multiset(rest) && s in multiset(regions);
      assert StartIn(home, s);
      if s == r {
        InOne(regions, cache, multiset{}, mapped, r);
        assert false;
      }
    }
  }

  lemma BackedKeys(c: Cells, c': Cells, r: Region)
    requires Backed(c, r) && c.Keys <= c'.Keys
    ensures Backed(c', r)
  {
    forall g: Addr {:trigger g in c'} | InRegion(r, g) && g % ALIGN == 0 ensures g in c' {
      assert g in c;
      assert g in c'.Keys;
    }
  }

  lemma UsableKeys(c: Cells, c': Cells, mapped: set<Region>)
    requires Usable(c, mapped) && c.Keys == c'.Keys
    ensures Usable(c', mapped)
  {
    forall r {:trigger r.Shaped()} | r in mapped ensures r.Shaped() && Backed(c', r) {
      assert r.Shaped();
      BackedKeys(c, c', r);
    }
  }

  lemma UsableAdd(c: Cells, mapped: set<Region>, r: Region)
    requires Usable(c, mapped - {r}) && r.Shaped() && Backed(c, r)
    ensures Usable(c, mapped)
  {
    forall s {:trigger s.Shaped()} | s in mapped ensures s.Shaped() && Backed(c, s) {
      if s != r { assert s in mapped - {r}; }
    }
  }

  /** c and c' differ at most inside r */
  ghost predicate SameOutside(c: Cells, c': Cells, r: Region) {
    forall g {:trigger SameCell(c, c', g)} | !InRegion(r, g) :: SameCell(c, c', g)
  }

  lemma OutsideHeaders(c: Cells, c': Cells, home: Homes, r: Region)
    requires Phys(c, home) && SameOutside(c, c', r)
    requires forall a {:trigger home[a]} | a in home :: RegionsApart(r, home[a])
    ensures forall a | a in home :: a in c && a in c' && c'[a] == c[a]
  {
    forall a | a in home ensures a in c && a in c' && c'[a] == c[a] {
      assert BlockOk(c, home, a);
      assert RegionsApart(r, home[a]);
      assert SameCell(c, c', a);
    }
  }

  lemma OutsideUsed(c: Cells, c': Cells, home: Homes, r: Region)
    requires Phys(c, home) && SameOutside(c, c', r)
    requires forall a {:trigger home[a]} | a in home :: RegionsApart(r, home[a])
    ensures UsedSame(c, home, c', home, 0)
  {
    OutsideHeaders(c, c', home, r);
    forall a: Addr {:trigger UsedSameAt(c, home, c', home, a)} | a != 0 ensures UsedSameAt(c, home, c', home, a) {
      if a in home {
        BlockInRegion(c, home, a);
        assert RegionsApart(r, home[a]);
      }
    }
  }

  /** memory changes outside every active region disturb nothing */
  lemma OutsideStage(c: Cells, c': Cells, home: Homes, heads: Heads, listed: set<Addr>, rank: Ranks, stamp: nat,
        r: Region)
    requires Consistent(c, home, heads, listed, rank, stamp, {}, {}) && SameOutside(c, c', r)
    requires forall a {:trigger home[a]} | a in home :: RegionsApart(r, home[a])
    ensures Consistent(c', home, heads, listed, rank, stamp, {}, {})
    ensures UsedSame(c, home, c', home, 0) && AllKept(c, c', home)
  {
    OutsideHeaders(c, c', home, r);
    AllKeptRefl(c, home);
    forall a {:trigger Kept(c, c', a)} | a in home ensures Kept(c, c', a) { assert Kept(c, c, a); }
    OutsideUsed(c, c', home, r);
    PhysFrame(c, c', home);
    HeadersSame(c, c', home, {} + {});
    ListedProper(c, home, listed, {});
    forall a {:trigger SameNode(c, c', a)} | a in listed ensures SameNode(c, c', a) {
      assert NodeOk(c, heads, listed, rank, a);
      assert Proper(home, a);
      assert BlockOk(c, home, a);
      assert RegionsApart(r, home[a]);
      assert SameCell(c, c', a) && SameCell(c, c', a + HEADER);
    }
    ListsFrame(c, c', heads, listed, rank, stamp);
    forall a: Addr {:trigger ListedAt(c', home, listed, {}, a)} ensures ListedAt(c', home, listed, {}, a) {
      assert ListedAt(c, home, listed, {}, a);
    }
  }

  lemma UsableOutside(c: Cells, c': Cells, mapped: set<Region>, r: Region)
    requires Usable(c, mapped) && SameOutside(c, c', r)
    requires (forall s {:trigger RegionsApart(r, s)} | s in mapped :: RegionsApart(r, s))
    ensures Usable(c', mapped)
  {
    forall s {:trigger s.Shaped()} | s in mapped ensures s.Shaped() && Backed(c', s) {
      assert s.Shaped();
      assert RegionsApart(r, s);
      forall g: Addr {:trigger g in c'} | InRegion(s, g) && g % ALIGN == 0 ensures g in c' {
        assert g in c;
        assert SameCell(c, c', g);
      }
    }
  }

  lemma BusyKept(c: Cells, home: Homes, c': Cells, home': Homes, r: Region)
    requires UsedSame(c, home, c', home', 0) && Busy(c, home, r) && 0 !in home
    ensures Busy(c', home', r)
  {
    var a :| IsUsed(c, home, a) && home[a] == r;
    assert UsedSameAt(c, home, c', home', a);
  }

  lemma BusyKeptBut(c: Cells, home: Homes, c': Cells, home': Homes, b: Addr, r: Region)
    requires UsedSame(c, home, c', home', b) && Busy(c, home, r) && b in home && home[b] != r
    ensures Busy(c', home', r)
  {
    var a :| IsUsed(c, home, a) && home[a] == r;
    assert UsedSameAt(c, home, c', home', a);
  }

  /** A free block with used neighbours that is not its whole region leaves an
      allocation in the region. */
  lemma StillBusy(c: Cells, home: Homes, b: Addr)
    requires Phys(c, home) && IsFree(c, home, b) && NextUsed(c, b)
    requires c[b].prevSize <= b && IsHeader(c, b - c[b].prevSize) && c[b - c[b].prevSize].used
    requires !(b == home[b].First() && c[b].size == home[b].Usable())
    ensures Busy(c, home, home[b])
  {
    ProperSize(c, home, b);
    var r, n, p := home[b], b + c[b].size, b - c[b].prevSize;
    assert BlockOk(c, home, n);
    assert BlockOk(c, home, p);
    if n != r.End() {
      assert IsUsed(c, home, n);
    } else {
      assert p != r.Start();
      assert IsUsed(c, home, p);
    }
  }

  /** A busy region is not one big free block. */
  lemma BusyNotIdle(c: Cells, home: Homes, r: Region)
    requires Phys(c, home) && Busy(c, home, r) && r.size >= OVERHEAD
    requires r.First() in home && home[r.First()] == r && IsHeader(c, r.First())
    ensures c[r.First()].used || c[r.First()].size != r.Usable()
  {
    var a :| IsUsed(c, home, a) && home[a] == r;
    if c[r.First()].size == r.Usable() { OnlyFirst(c, home, r, a); }
  }

  /** a mapped region that is not active is fresh for the tiling */
  lemma SpareIsApart(home: Homes, regions: seq<Region>, cache: seq<Region>, extra: multiset<Region>,
        mapped: set<Region>, r: Region)
    requires Accounted(regions, cache, extra, mapped) && AllApart(mapped) && Covered(home, regions)
    requires r in mapped && r !in regions
    ensures forall a {:trigger home[a]} | a in home :: RegionsApart(r, home[a])
  {
    forall a {:trigger home[a]} | a in home ensures RegionsApart(r, home[a]) {
      assert HomeIn(home, regions, a);
      InOne(regions, cache, extra, mapped, home[a]);
    }
  }

  lemma CoveredActivate(home: Homes, regions: seq<Region>, r: Region)
    requires Covered(home, regions) && FreshRegion(home, r) && (forall a | a in home :: !InRegion(r, a))
    ensures Covered(ActivateHomes(home, r), [r] + regions)
  {
    var home', regions' := ActivateHomes(home, r), [r] + regions;
    forall a {:trigger HomeIn(home', regions', a)} | a in home' ensures HomeIn(home', regions', a) {
      if a in home { assert HomeIn(home, regions, a); }
    }
    forall s {:trigger StartIn(home', s)} | s in regions' ensures StartIn(home', s) {
      if s != r { assert StartIn(home, s); }
    }
  }

  /** the active region found by address is the block's own */
  lemma FoundRegion(c: Cells, home: Homes, regions: seq<Region>, cache: seq<Region>, mapped: set<Region>, b: Addr,
        found: Option<Region>)
    requires Phys(c, home) && Covered(home, regions) && Accounted(regions, cache, multiset{}, mapped)
    requires AllApart(mapped)
    requires b in home
    requires found.Some? ==> found.value in regions && InRegion(found.value, b)
    requires found.None? ==> forall s | s in regions :: !InRegion(s, b)
    ensures found == Some(home[b]) && home[b] in regions
  {
    assert BlockOk(c, home, b);
    assert HomeIn(home, regions, b);
    var r := home[b];
    assert InRegion(r, b);
    if found.Some? {
      InOne(regions, cache, multiset{}, mapped, r);
      InOne(regions, cache, multiset{}, mapped, found.value);
      assert found.value != r ==> RegionsApart(r, found.value);
    }
  }

  lemma PrevIsUsed(c: Cells, home: Homes, b: Addr)
    requires Phys(c, home) && CoalescedBut(c, home, {}) && IsFree(c, home, b)
    ensures c[b].prevSize <= b && IsHeader(c, b - c[b].prevSize) && c[b - c[b].prevSize].used
  {
    ProperSize(c, home, b);
    var p := b - c[b].prevSize;
    assert IsFree(c, home, p) ==> NextUsed(c, p);
    if !c[p].used {
      FreeIsProper(c, home, p);
      assert false;
    }
  }

  /** giving a spare region back to the kernel disturbs nothing */
  lemma UnmapSpare(c: Cells, home: Homes, heads: Heads, listed: set<Addr>, rank: Ranks, stamp: nat,
                   regions: seq<Region>, cache: seq<Region>, mapped: set<Region>, r: Region)
    requires Consistent(c, home, heads, listed, rank, stamp, {}, {}) && Covered(home, regions)
    requires Accounted(regions, cache, multiset{r}, mapped) && Usable(c, mapped - {r}) && AllApart(mapped)
    ensures Consistent(Unmap(c, r), home, heads, listed, rank, stamp, {}, {})
    ensures UsedSame(c, home, Unmap(c, r), home, 0) && AllKept(c, Unmap(c, r), home)
    ensures Accounted(regions, cache, multiset{}, mapped - {r}) && Usable(Unmap(c, r), mapped - {r})
    ensures AllApart(mapped - {r})
  {
    InOne(regions, cache, multiset{r}, mapped, r);
    SpareIsApart(home, regions, cache, multiset{r}, mapped, r);
    OutsideStage(c, Unmap(c, r), home, heads, listed, rank, stamp, r);
    UsableOutside(c, Unmap(c, r), mapped - {r}, r);
    assert multiset(mapped - {r}) == multiset(mapped) - multiset{r};
  }

  lemma GranulesBacked(c: Cells, r: Region)
    requires Backed(c, r) && r.Shaped()
    ensures r.Start() in c && r.First() in c && r.First() + HEADER in c && r.End() in c
  {
    assert InRegion(r, r.Start()) && InRegion(r, r.First()) && InRegion(r, r.First() + HEADER) && InRegion(r, r.End());
  }

  /** bringing a spare region into use */
  lemma ActivateSpare(c: Cells, home: Homes, heads: Heads, listed: set<Addr>, rank: Ranks, stamp: nat,
                      regions: seq<Region>, cache: seq<Region>, mapped: set<Region>, r: Region)
    requires Consistent(c, home, heads, listed, rank, stamp, {}, {}) && Covered(home, regions)
    requires Accounted(regions, cache, multiset{r}, mapped) && Usable(c, mapped) && AllApart(mapped)
    ensures r.Shaped() && FreshRegion(home, r) && r.First() + HEADER in c
    ensures ActivateCells(c, r).Keys == c.Keys
    ensures Consistent(ActivateCells(c, r), ActivateHomes(home, r), heads, listed, rank, stamp, {r.First()}, {})
    ensures UsedSame(c, home, ActivateCells(c, r), ActivateHomes(home, r), 0)
    ensures IsFree(ActivateCells(c, r), ActivateHomes(home, r), r.First()) && NextUsed(ActivateCells(c, r), r.First())
    ensures Covered(ActivateHomes(home, r), [r] + regions)
    ensures Accounted([r] + regions, cache, multiset{}, mapped)
    ensures forall a | a in home :: IsHeader(c, a) && a in ActivateCells(c, r) && ActivateCells(c, r)[a] == c[a]
  {
    InOne(regions, cache, multiset{r}, mapped, r);
    assert r.Shaped();
    SpareIsApart(home, regions, cache, multiset{r}, mapped, r);
    ActivateStage(c, home, heads, listed, rank, stamp, r);
    forall a | a in home
      ensures !InRegion(r, a) && IsHeader(c, a) && a in ActivateCells(c, r) && ActivateCells(c, r)[a] == c[a]
    {
      ActivateSame(c, home, r, a);
    }
    CoveredActivate(home, regions, r);
    GranulesBacked(c, r);
    assert multiset([r] + regions) == multiset{r} + multiset(regions);
  }

  /** the search of tlsf_region_take_cache: smallest region that is large enough */
  method BestFit(rs: seq<Region>, minUsable: nat) returns (best: Option<nat>)
    requires forall s | s in rs :: s.size >= OVERHEAD
    ensures best.None? ==> forall s | s in rs :: s.Usable() < minUsable
    ensures best.Some? ==> best.value < |rs| && minUsable <= rs[best.value].Usable()
    ensures best.Some? ==> forall s | s in rs :: minUsable <= s.Usable() ==> rs[best.value].Usable() <= s.Usable()
  {
    var i := 0;
    best := None;
    while i < |rs|
      invariant i <= |rs|
      invariant best.None? ==> forall j | 0 <= j < i :: rs[j].Usable() < minUsable
      invariant best.Some? ==> best.value < i && minUsable <= rs[best.value].Usable()
      invariant best.Some? ==> forall j | 0 <= j < i :: minUsable <= rs[j].Usable() ==>
        rs[best.value].Usable() <= rs[j].Usable()
    {
      if minUsable <= rs[i].Usable() {
        if best.None? || rs[i].Usable() < rs[best.value].Usable() { best := Some(i); }
      }
      i := i + 1;
    }
  }

  /** a new mapping, apart from all others, disturbs nothing */
  lemma NewMapping(c: Cells, c': Cells, home: Homes, heads: Heads, listed: set<Addr>, rank: Ranks, stamp: nat,
                   regions: seq<Region>, cache: seq<Region>, mapped: set<Region>, r: Region)
    requires Consistent(c, home, heads, listed, rank, stamp, {}, {}) && Covered(home, regions)
    requires Accounted(regions, cache, multiset{}, mapped) && Usable(c, mapped) && AllApart(mapped)
    requires SameOutside(c, c', r) && r !in mapped
    requires forall s {:trigger RegionsApart(r, s)} | s in mapped :: RegionsApart(r, s)
    ensures Consistent(c', home, heads, listed, rank, stamp, {}, {}) && UsedSame(c, home, c', home, 0)
    ensures AllKept(c, c', home)
    ensures Accounted(regions, cache, multiset{r}, mapped + {r}) && Usable(c', mapped) && AllApart(mapped + {r})
  {
    forall a {:trigger home[a]} | a in home ensures RegionsApart(r, home[a]) {
      assert HomeIn(home, regions, a);
      InOne(regions, cache, multiset{}, mapped, home[a]);
    }
    OutsideStage(c, c', home, heads, listed, rank, stamp, r);
    UsableOutside(c, c', mapped, r);
    assert multiset(mapped + {r}) == multiset(mapped) + multiset{r};
    forall s, t {:trigger RegionsApart(s, t)} | s in mapped + {r} && t in mapped + {r} && s != t
      ensures RegionsApart(s, t)
    {
      assert s != r ==> RegionsApart(r, s);
      assert t != r ==> RegionsApart(r, t);
    }
  }
}
