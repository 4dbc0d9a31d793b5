/** Walking a region block by block, as the size fields say: the walk runs from
    the first block to the end sentinel, meets every block of the region, and
    the sizes add up to the usable size. */
module TlsfTiling {
  import opened TlsfHeap

  /** the blocks from a up to the end sentinel of its region */
  ghost function Blocks(c: Cells, home: Homes, a: Addr): seq<Addr>
    requires Phys(c, home) && a in home && a > home[a].Start()
    decreases home[a].base + home[a].size - a
  {
    assert BlockOk(c, home, a);
    if a == home[a].End() then [] else
      assert BlockOk(c, home, a + c[a].size);
      [a] + Blocks(c, home, a + c[a].size)
  }

  ghost function TotalSize(c: Cells, bs: seq<Addr>): nat {
    if bs == [] then 0 else (if IsHeader(c, bs[0]) then c[bs[0]].size else 0) + TotalSize(c, bs[1..])
  }

  lemma {:induction false} BlocksSum(c: Cells, home: Homes, a: Addr)
    requires Phys(c, home) && a in home && a > home[a].Start()
    ensures BlockOk(c, home, a) && TotalSize(c, Blocks(c, home, a)) == home[a].End() - a
    decreases home[a].base + home[a].size - a
  {
    assert BlockOk(c, home, a);
    if a != home[a].End() {
      var n := a + c[a].size;
      assert BlockOk(c, home, n);
      BlocksSum(c, home, n);
      assert Blocks(c, home, a)[1..] == Blocks(c, home, n);
    }
  }

  lemma {:induction false} BlocksMembers(c: Cells, home: Homes, a: Addr, x: Addr)
    requires Phys(c, home) && a in home && a > home[a].Start()
    ensures x in Blocks(c, home, a) <==> Proper(home, x) && home[x] == home[a] && a <= x
    decreases home[a].base + home[a].size - a
  {
    assert BlockOk(c, home, a);
    if a != home[a].End() {
      var n := a + c[a].size;
      assert BlockOk(c, home, n);
      BlocksMembers(c, home, n, x);
      assert x in home ==> Apart(c, a, x);
    } else if x in home {
      assert BlockOk(c, home, x);
    }
  }

  /** Every active region is exactly tiled by its blocks. */
  lemma RegionTiled(c: Cells, home: Homes, r: Region, x: Addr)
    requires Phys(c, home) && r.size >= OVERHEAD && r.Start() in home && home[r.Start()] == r
    ensures r.First() in home && home[r.First()] == r
    ensures TotalSize(c, Blocks(c, home, r.First())) == r.Usable()
    ensures x in Blocks(c, home, r.First()) <==> Proper(home, x) && home[x] == r
  {
    assert BlockOk(c, home, r.Start());
    BlocksSum(c, home, r.First());
    BlocksMembers(c, home, r.First(), x);
    if x in home { assert BlockOk(c, home, x); }
  }
}
