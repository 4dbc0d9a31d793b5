/** User memory: bytes of a payload, the allocations handed out, and why user
    writes and the allocator's own stay out of each other's way. */
module TlsfPayload {
  import opened Options
  import opened TlsfMapping
  import opened TlsfHeap
  import opened TlsfLists
  import opened TlsfSteps

  /** the granule a byte lies in */
  function Granule(x: Addr): Addr { x - x % ALIGN }

  /** a byte of user data; a granule last used for a header or links has none */
  function ByteAt(c: Cells, x: Addr): Option<nat> {
    var g := Granule(x);
    if g in c && c[g].Data? && |c[g].bytes| == ALIGN then Some(c[g].bytes[x % ALIGN]) else None
  }

  function StoreByte(c: Cells, x: Addr, v: nat): Cells {
    var g := Granule(x);
    var bytes := if g in c && c[g].Data? && |c[g].bytes| == ALIGN then c[g].bytes else seq(ALIGN, _ => 0);
    c[g := Data(bytes[x % ALIGN := v])]
  }

  lemma StoreByteEffect(c: Cells, x: Addr, v: nat, y: Addr)
    ensures ByteAt(StoreByte(c, x, v), x) == Some(v)
    ensures y != x && ByteAt(c, y).Some? ==> ByteAt(StoreByte(c, x, v), y) == ByteAt(c, y)
  {
    if y != x && Granule(y) == Granule(x) { assert y % ALIGN != x % ALIGN; }
  }

  /** memory from lo up to hi may differ, the rest is untouched */
  ghost predicate SameBut(c: Cells, c': Cells, lo: Addr, hi: Addr) {
    forall g: Addr {:trigger SameCell(c, c', g)} | g < lo || hi <= g :: SameCell(c, c', g)
  }

  ghost predicate Addressable(c: Cells, p: Addr, n: nat) {
    forall g: Addr {:trigger g in c} | p <= g < p + n && g % ALIGN == 0 :: g in c
  }

  lemma GranuleInside(p: Addr, n: nat, i: nat)
    requires p % ALIGN == 0 && i < n
    ensures p <= Granule(p + i) <= p + i < p + n && Granule(p + i) % ALIGN == 0
  {
  }

  lemma StoreInside(c: Cells, c1: Cells, p: Addr, n: nat, i: nat, v: nat)
    requires p % ALIGN == 0 && i < n && Addressable(c, p, n) && SameBut(c, c1, p, p + n) && c1.Keys == c.Keys
    ensures SameBut(c, StoreByte(c1, p + i, v), p, p + n) && StoreByte(c1, p + i, v).Keys == c.Keys
  {
    GranuleInside(p, n, i);
    var g0 := Granule(p + i);
    assert g0 in c;
    var c2 := StoreByte(c1, p + i, v);
    forall g: Addr {:trigger SameCell(c, c2, g)} | g < p || p + n <= g ensures SameCell(c, c2, g) {
      assert SameCell(c, c1, g);
    }
    assert g0 in c1.Keys;
  }

  ghost predicate ByteIs(c: Cells, p: Addr, i: nat, v: nat) { ByteAt(c, p + i) == Some(v) }

  lemma SetStep(c: Cells, p: Addr, i: nat, v: nat)
    requires forall j: nat {:trigger ByteIs(c, p, j, v)} | j < i :: ByteIs(c, p, j, v)
    ensures
      var c' := StoreByte(c, p + i, v);
      forall j: nat {:trigger ByteIs(c', p, j, v)} | j < i + 1 :: ByteIs(c', p, j, v)
  {
    var c' := StoreByte(c, p + i, v);
    forall j: nat {:trigger ByteIs(c', p, j, v)} | j < i + 1 ensures ByteIs(c', p, j, v) {
      if j < i { assert ByteIs(c, p, j, v); }
      StoreByteEffect(c, p + i, v, p + j);
    }
  }

  /** memset(p, v, n), byte by byte */
  method Memset(c: Cells, p: Addr, v: nat, n: nat) returns (c': Cells)
    requires p % ALIGN == 0 && Addressable(c, p, n)
    ensures forall i: nat {:trigger ByteIs(c', p, i, v)} | i < n :: ByteIs(c', p, i, v)
    ensures c'.Keys == c.Keys && SameBut(c, c', p, p + n)
  {
    c' := c;
    var i := 0;
    while i < n
      invariant i <= n && c'.Keys == c.Keys && SameBut(c, c', p, p + n)
      invariant forall j: nat {:trigger ByteIs(c', p, j, v)} | j < i :: ByteIs(c', p, j, v)
    {
      SetStep(c', p, i, v);
      StoreInside(c, c', p, n, i, v);
      c' := StoreByte(c', p + i, v);
      i := i + 1;
    }
  }

  /** byte i arrived, if the source had a byte there */
  ghost predicate Copied(c: Cells, c': Cells, dst: Addr, src: Addr, i: nat) {
    ByteAt(c, src + i).Some? ==> ByteAt(c', dst + i) == ByteAt(c, src + i)
  }

  ghost predicate CopiedTo(c: Cells, c': Cells, dst: Addr, src: Addr, n: nat) {
    forall i: nat {:trigger Copied(c, c', dst, src, i)} | i < n :: Copied(c, c', dst, src, i)
  }

  lemma CopyStep(c: Cells, c1: Cells, dst: Addr, src: Addr, i: nat, v: nat)
    requires CopiedTo(c, c1, dst, src, i) && ByteAt(c, src + i) == Some(v)
    ensures CopiedTo(c, StoreByte(c1, dst + i, v), dst, src, i + 1)
  {
    var c' := StoreByte(c1, dst + i, v);
    forall j: nat {:trigger Copied(c, c', dst, src, j)} | j < i + 1 ensures Copied(c, c', dst, src, j) {
      if j < i { assert Copied(c, c1, dst, src, j); }
      StoreByteEffect(c1, dst + i, v, dst + j);
    }
  }

  /** memcpy(dst, src, n) between payloads that do not overlap */
  method Memcpy(c: Cells, dst: Addr, src: Addr, n: nat) returns (c': Cells)
    requires dst % ALIGN == 0 && src % ALIGN == 0 && Addressable(c, dst, n)
    requires dst + n <= src || src + n <= dst
    ensures CopiedTo(c, c', dst, src, n)
    ensures c'.Keys == c.Keys && SameBut(c, c', dst, dst + n)
  {
    c' := c;
    var i := 0;
    while i < n
      invariant i <= n && c'.Keys == c.Keys && SameBut(c, c', dst, dst + n)
      invariant CopiedTo(c, c', dst, src, i)
    {
      CopySource(c, c', dst, src, n, i);
      var b := ByteAt(c', src + i);
      if b.Some? {
        CopyStep(c, c', dst, src, i, b.value);
        StoreInside(c, c', dst, n, i, b.value);
        c' := StoreByte(c', dst + i, b.value);
      }
      i := i + 1;
    }
  }

  lemma CopySource(c: Cells, c': Cells, dst: Addr, src: Addr, n: nat, i: nat)
    requires src % ALIGN == 0 && dst % ALIGN == 0 && i < n && (dst + n <= src || src + n <= dst)
    requires SameBut(c, c', dst, dst + n)
    ensures ByteAt(c', src + i) == ByteAt(c, src + i)
  {
    GranuleInside(src, n, i);
    assert SameCell(c, c', Granule(src + i));
  }

  lemma SameBytes(c: Cells, c': Cells, lo: Addr, hi: Addr, x: Addr)
    requires SameRange(c, c', lo, hi) && lo % ALIGN == 0 && lo <= x < hi
    ensures ByteAt(c', x) == ByteAt(c, x)
  {
    assert SameCell(c, c', Granule(x));
  }

  lemma SameIsCopied(c: Cells, c': Cells, p: Addr, n: nat)
    requires SameRange(c, c', p, p + n) && p % ALIGN == 0
    ensures CopiedTo(c, c', p, p, n)
  {
    forall i: nat {:trigger Copied(c, c', p, p, i)} | i < n ensures Copied(c, c', p, p, i) {
      SameBytes(c, c', p, p + n, p + i);
    }
  }

  // ----- allocations -----

  ghost predicate LiveAt(c: Cells, home: Homes, live: map<Addr, nat>, p: Addr) {
    p in live && p >= HEADER && IsUsed(c, home, p - HEADER) && live[p] + HEADER <= c[p - HEADER].size
  }

  ghost predicate LiveUsed(c: Cells, home: Homes, live: map<Addr, nat>, a: Addr) {
    IsUsed(c, home, a) ==> a + HEADER in live
  }

  /** live allocations and used blocks are one and the same, and large enough */
  ghost predicate LiveOk(c: Cells, home: Homes, live: map<Addr, nat>) {
    && (forall p {:trigger LiveAt(c, home, live, p)} | p in live :: LiveAt(c, home, live, p))
    && (forall a: Addr {:trigger LiveUsed(c, home, live, a)} :: LiveUsed(c, home, live, a))
  }

  ghost predicate KeptAt(c: Cells, c': Cells, live: map<Addr, nat>, q: Addr) {
    q in live && SameRange(c, c', q, q + live[q])
  }

  /** the contents of every allocation other than p are untouched */
  ghost predicate ContentsKept(c: Cells, c': Cells, live: map<Addr, nat>, p: Addr) {
    forall q {:trigger KeptAt(c, c', live, q)} | q in live && q != p :: KeptAt(c, c', live, q)
  }

  lemma ContentsTrans(c: Cells, c1: Cells, c2: Cells, live: map<Addr, nat>, p: Addr)
    requires ContentsKept(c, c1, live, p) && ContentsKept(c1, c2, live, p)
    ensures ContentsKept(c, c2, live, p)
  {
    forall q {:trigger KeptAt(c, c2, live, q)} | q in live && q != p ensures KeptAt(c, c2, live, q) {
      assert KeptAt(c, c1, live, q) && KeptAt(c1, c2, live, q);
      SameRangeTrans(c, c1, c2, q, q + live[q]);
    }
  }

  lemma LiveDrop(c: Cells, home: Homes, c': Cells, home': Homes, live: map<Addr, nat>, b: Addr)
    requires LiveOk(c, home, live) && UsedSame(c, home, c', home', b) && !IsUsed(c', home', b)
    ensures LiveOk(c', home', live - {b + HEADER}) && ContentsKept(c, c', live, b + HEADER)
  {
    var live' := live - {b + HEADER};
    forall p {:trigger LiveAt(c', home', live', p)} | p in live' ensures LiveAt(c', home', live', p) {
      assert LiveAt(c, home, live, p);
      assert UsedSameAt(c, home, c', home', p - HEADER);
    }
    forall a: Addr {:trigger LiveUsed(c', home', live', a)} ensures LiveUsed(c', home', live', a) {
      if a != b { assert UsedSameAt(c, home, c', home', a); assert LiveUsed(c, home, live, a); }
    }
    KeptContents(c, home, c', home', live, b);
  }

  lemma LiveSet(c: Cells, home: Homes, c': Cells, home': Homes, live: map<Addr, nat>, b: Addr, n: nat)
    requires LiveOk(c, home, live) && UsedSame(c, home, c', home', b) && IsUsed(c', home', b)
    requires n + HEADER <= c'[b].size
    ensures LiveOk(c', home', live[b + HEADER := n]) && ContentsKept(c, c', live, b + HEADER)
  {
    var live' := live[b + HEADER := n];
    forall p {:trigger LiveAt(c', home', live', p)} | p in live' ensures LiveAt(c', home', live', p) {
      if p != b + HEADER {
        assert LiveAt(c, home, live, p);
        assert UsedSameAt(c, home, c', home', p - HEADER);
      }
    }
    forall a: Addr {:trigger LiveUsed(c', home', live', a)} ensures LiveUsed(c', home', live', a) {
      if a != b { assert UsedSameAt(c, home, c', home', a); assert LiveUsed(c, home, live, a); }
    }
    KeptContents(c, home, c', home', live, b);
  }

  lemma KeptContents(c: Cells, home: Homes, c': Cells, home': Homes, live: map<Addr, nat>, b: Addr)
    requires LiveOk(c, home, live) && UsedSame(c, home, c', home', b)
    ensures ContentsKept(c, c', live, b + HEADER)
  {
    forall q {:trigger KeptAt(c, c', live, q)} | q in live && q != b + HEADER ensures KeptAt(c, c', live, q) {
      assert LiveAt(c, home, live, q);
      assert UsedSameAt(c, home, c', home', q - HEADER);
    }
  }

  lemma LiveSame(c: Cells, home: Homes, c': Cells, home': Homes, live: map<Addr, nat>)
    requires LiveOk(c, home, live) && UsedSame(c, home, c', home', 0) && 0 !in home && 0 !in home'
    ensures LiveOk(c', home', live) && ContentsKept(c, c', live, 0)
  {
    forall p {:trigger LiveAt(c', home', live, p)} | p in live ensures LiveAt(c', home', live, p) {
      assert LiveAt(c, home, live, p);
      assert UsedSameAt(c, home, c', home', p - HEADER);
    }
    forall a: Addr {:trigger LiveUsed(c', home', live, a)} ensures LiveUsed(c', home', live, a) {
      if a != 0 { assert UsedSameAt(c, home, c', home', a); assert LiveUsed(c, home, live, a); }
    }
    forall q {:trigger KeptAt(c, c', live, q)} | q in live && q != 0 ensures KeptAt(c, c', live, q) {
      assert LiveAt(c, home, live, q);
      assert UsedSameAt(c, home, c', home', q - HEADER);
    }
  }

  /** Live payloads are 16-byte aligned, large enough, inside their region and
      pairwise disjoint. */
  lemma PayloadsDisjoint(c: Cells, home: Homes, live: map<Addr, nat>, p: Addr, q: Addr)
    requires Phys(c, home) && LiveOk(c, home, live) && p in live && q in live && p != q
    ensures p % ALIGN == 0 && p > HEADER
    ensures p + live[p] <= q || q + live[q] <= p
    ensures p >= HEADER && p - HEADER in home && home[p - HEADER].First() < p
    ensures p + live[p] <= home[p - HEADER].base + home[p - HEADER].size
  {
    assert LiveAt(c, home, live, p) && LiveAt(c, home, live, q);
    var a, b := p - HEADER, q - HEADER;
    assert BlockOk(c, home, a) && AlignedAt(c, a);
    assert Apart(c, a, b) && Apart(c, b, a);
  }

  // ----- user writes -----

  /** writing inside the payload of a used block disturbs nothing else */
  lemma PayloadStage(c: Cells, c': Cells, home: Homes, heads: Heads, listed: set<Addr>, rank: Ranks, stamp: nat,
        b: Addr)
    requires Consistent(c, home, heads, listed, rank, stamp, {}, {}) && IsUsed(c, home, b)
    requires SameBut(c, c', b + HEADER, b + c[b].size)
    ensures Consistent(c', home, heads, listed, rank, stamp, {}, {})
    ensures UsedSame(c, home, c', home, b) && IsUsed(c', home, b) && c'[b].size == c[b].size
  {
    PayloadHeaders(c, c', home, b);
    PhysFrame(c, c', home);
    HeadersSame(c, c', home, {} + {});
    ListedProper(c, home, listed, {});
    forall a {:trigger SameNode(c, c', a)} | a in listed ensures SameNode(c, c', a) {
      assert NodeOk(c, heads, listed, rank, a);
      assert Proper(home, a);
      assert ListedAt(c, home, listed, {}, a);
      Elsewhere(c, home, a, b);
      assert SameCell(c, c', a + HEADER);
    }
    ListsFrame(c, c', heads, listed, rank, stamp);
    forall a: Addr {:trigger ListedAt(c', home, listed, {}, a)} ensures ListedAt(c', home, listed, {}, a) {
      assert ListedAt(c, home, listed, {}, a);
    }
    forall a: Addr {:trigger UsedSameAt(c, home, c', home, a)} | a != b ensures UsedSameAt(c, home, c', home, a) {
      if IsUsed(c, home, a) { Elsewhere(c, home, a, b); Elsewhere(c, home, b, a); }
    }
  }

  lemma PayloadHeaders(c: Cells, c': Cells, home: Homes, b: Addr)
    requires Phys(c, home) && IsUsed(c, home, b)
    requires SameBut(c, c', b + HEADER, b + c[b].size)
    ensures forall a | a in home :: a in c && a in c' && c'[a] == c[a]
  {
    forall a | a in home ensures a in c && a in c' && c'[a] == c[a] {
      BlockInRegion(c, home, a);
      if a != b { Elsewhere(c, home, a, b); }
      assert SameCell(c, c', a);
    }
  }

  /** allocate, copy, free: the bytes arrive and nothing else changes */
  lemma MoveEffect(c0: Cells, c1: Cells, c2: Cells, c3: Cells, live: map<Addr, nat>, p: Addr, q: Addr, size: nat,
        copy: nat)
    requires p in live && q !in live && 0 !in live && q != 0 && p % ALIGN == 0 && q % ALIGN == 0 && copy <= size
    requires q != p
    requires copy >= (if live[p] < size then live[p] else size)
    requires ContentsKept(c0, c1, live, 0)
    requires CopiedTo(c1, c2, q, p, copy) && ContentsKept(c1, c2, live[q := size], q)
    requires ContentsKept(c2, c3, live[q := size], p)
    ensures ContentsKept(c0, c3, live, p)
    ensures CopiedTo(c0, c3, q, p, if live[p] < size then live[p] else size)
  {
    var live' := live[q := size];
    var n := if live[p] < size then live[p] else size;
    forall x {:trigger KeptAt(c0, c3, live, x)} | x in live && x != p ensures KeptAt(c0, c3, live, x) {
      assert KeptAt(c0, c1, live, x) && KeptAt(c1, c2, live', x) && KeptAt(c2, c3, live', x);
      SameRangeTrans(c0, c1, c2, x, x + live[x]);
      SameRangeTrans(c0, c2, c3, x, x + live[x]);
    }
    assert KeptAt(c0, c1, live, p) && KeptAt(c2, c3, live', q);
    forall i: nat {:trigger Copied(c0, c3, q, p, i)} | i < n ensures Copied(c0, c3, q, p, i) {
      SameBytes(c0, c1, p, p + live[p], p + i);
      SameBytes(c2, c3, q, q + size, q + i);
      assert Copied(c1, c2, q, p, i);
    }
  }
}
