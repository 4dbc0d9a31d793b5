/** The segregated free lists: doubly linked lists threaded through the free
    blocks, one head per size class, indexed by a two-level bitmap. The
    invariant is local (each link is mirrored); `rank`, the time of insertion,
    falls along every list, so a list cannot be cyclic. */
module TlsfLists {
  import opened TlsfMapping
  import opened TlsfHeap

  type Heads = map<Class, Addr>
  type Ranks = map<Addr, nat>

  ghost predicate IsLinks(c: Cells, a: Addr) { a in c && c[a].Links? }

  /** a listed block of class k */
  ghost predicate Node(c: Cells, listed: set<Addr>, k: Class, a: Addr) {
    a in listed && IsHeader(c, a) && ClassOf(c[a].size) == k && IsLinks(c, a + HEADER)
  }

  ghost predicate NodeBase(c: Cells, heads: Heads, rank: Ranks, a: Addr) {
    && a > 0 && IsHeader(c, a) && !c[a].used && BlockSize(c[a].size)
    && IsLinks(c, a + HEADER) && a in rank && ClassOf(c[a].size) in heads
  }

  ghost predicate NextLink(c: Cells, listed: set<Addr>, rank: Ranks, a: Addr)
    requires IsHeader(c, a) && IsLinks(c, a + HEADER) && a in rank
  {
    var n := c[a + HEADER].next;
    n != 0 ==> Node(c, listed, ClassOf(c[a].size), n) && c[n + HEADER].prev == a && n in rank && rank[n] < rank[a]
  }

  ghost predicate PrevLink(c: Cells, heads: Heads, listed: set<Addr>, a: Addr)
    requires IsHeader(c, a) && IsLinks(c, a + HEADER) && ClassOf(c[a].size) in heads
  {
    var p := c[a + HEADER].prev;
    if p == 0 then heads[ClassOf(c[a].size)] == a
    else Node(c, listed, ClassOf(c[a].size), p) && c[p + HEADER].next == a
  }

  ghost predicate NodeOk(c: Cells, heads: Heads, listed: set<Addr>, rank: Ranks, a: Addr) {
    NodeBase(c, heads, rank, a) && NextLink(c, listed, rank, a) && PrevLink(c, heads, listed, a)
  }

  ghost predicate HeadOk(c: Cells, heads: Heads, listed: set<Addr>, k: Class) {
    k in heads && (heads[k] != 0 ==> Node(c, listed, k, heads[k]) && c[heads[k] + HEADER].prev == 0)
  }

  ghost predicate NodesOk(c: Cells, heads: Heads, listed: set<Addr>, rank: Ranks) {
    forall a {:trigger NodeOk(c, heads, listed, rank, a)} | a in listed :: NodeOk(c, heads, listed, rank, a)
  }

  ghost predicate HeadsOk(c: Cells, heads: Heads, listed: set<Addr>) {
    forall k: Class {:trigger HeadOk(c, heads, listed, k)} | k.Valid() :: HeadOk(c, heads, listed, k)
  }

  /** the links of one block never lie on the header of another */
  ghost predicate Clear(a: Addr, b: Addr) { a + HEADER != b }

  ghost predicate Separate(listed: set<Addr>) {
    forall a, b {:trigger Clear(a, b)} | a in listed && b in listed :: Clear(a, b)
  }

  ghost predicate RanksBelow(listed: set<Addr>, rank: Ranks, stamp: nat) {
    forall a | a in listed && a in rank :: rank[a] < stamp
  }

  ghost predicate ListsOk(c: Cells, heads: Heads, listed: set<Addr>, rank: Ranks, stamp: nat) {
    && NodesOk(c, heads, listed, rank)
    && HeadsOk(c, heads, listed)
    && Separate(listed)
    && RanksBelow(listed, rank, stamp)
  }

  // ----- tlsf_free_insert -----

  function InsertCells(c: Cells, b: Addr, h: Addr): Cells
    requires h != 0 ==> h + HEADER in c && c[h + HEADER].Links?
  {
    var c1 := c[b + HEADER := Links(h, 0)];
    if h == 0 then c1 else c1[h + HEADER := c[h + HEADER].(prev := b)]
  }

  ghost predicate CanInsert(c: Cells, heads: Heads, listed: set<Addr>, rank: Ranks, stamp: nat, b: Addr) {
    && ListsOk(c, heads, listed, rank, stamp)
    && b > 0 && b !in listed && IsHeader(c, b) && !c[b].used && BlockSize(c[b].size)
    && (forall a | a in listed :: Clear(a, b) && Clear(b, a))
  }

  lemma InsertReady(c: Cells, heads: Heads, listed: set<Addr>, rank: Ranks, stamp: nat, b: Addr)
    requires CanInsert(c, heads, listed, rank, stamp, b)
    ensures var k := ClassOf(c[b].size);
      k.Valid() && HeadOk(c, heads, listed, k)
      && (heads[k] != 0 ==>
        NodeOk(c, heads, listed, rank, heads[k]) && heads[k] != b && Clear(b, heads[k]) && Clear(heads[k], b))
  {
    ClassBounds(c[b].size);
    var k := ClassOf(c[b].size);
    assert HeadOk(c, heads, listed, k);
    if heads[k] != 0 { assert NodeOk(c, heads, listed, rank, heads[k]); }
  }

  lemma InsertNodes(c: Cells, heads: Heads, listed: set<Addr>, rank: Ranks, stamp: nat, b: Addr)
    requires CanInsert(c, heads, listed, rank, stamp, b)
    ensures HeadOk(c, heads, listed, ClassOf(c[b].size))
    ensures
      var k := ClassOf(c[b].size);
      NodesOk(InsertCells(c, b, heads[k]), heads[k := b], listed + {b}, rank[b := stamp])
  {
    InsertReady(c, heads, listed, rank, stamp, b);
    var k := ClassOf(c[b].size);
    var h := heads[k];
    var c', heads', listed', rank' := InsertCells(c, b, h), heads[k := b], listed + {b}, rank[b := stamp];
    forall a {:trigger NodeOk(c', heads', listed', rank', a)} | a in listed'
      ensures NodeOk(c', heads', listed', rank', a)
    {
      if a != b {
        assert NodeOk(c, heads, listed, rank, a);
        assert Clear(a, b) && Clear(b, a);
        assert h != 0 ==> Clear(h, a) && Clear(a, h);
        var n, p := c[a + HEADER].next, c[a + HEADER].prev;
        assert n != 0 ==> Clear(n, b) && Clear(b, n) && (h != 0 ==> Clear(h, n));
        assert p != 0 ==> Clear(p, b) && Clear(b, p) && (h != 0 ==> Clear(h, p));
      }
    }
  }

  lemma InsertHeads(c: Cells, heads: Heads, listed: set<Addr>, rank: Ranks, stamp: nat, b: Addr)
    requires CanInsert(c, heads, listed, rank, stamp, b)
    ensures HeadOk(c, heads, listed, ClassOf(c[b].size))
    ensures
      var k := ClassOf(c[b].size);
      HeadsOk(InsertCells(c, b, heads[k]), heads[k := b], listed + {b})
  {
    InsertReady(c, heads, listed, rank, stamp, b);
    var k := ClassOf(c[b].size);
    var h := heads[k];
    var c', heads', listed' := InsertCells(c, b, h), heads[k := b], listed + {b};
    forall j: Class {:trigger HeadOk(c', heads', listed', j)} | j.Valid() ensures HeadOk(c', heads', listed', j) {
      assert HeadOk(c, heads, listed, j);
      if j != k && heads[j] != 0 {
        assert Clear(heads[j], b) && Clear(b, heads[j]);
        assert h != 0 ==> Clear(h, heads[j]);
      }
      assert h != 0 ==> Clear(h, b);
    }
  }

  /** Inserting keeps every list well linked and adds exactly b. */
  lemma InsertLists(c: Cells, heads: Heads, listed: set<Addr>, rank: Ranks, stamp: nat, b: Addr)
    requires CanInsert(c, heads, listed, rank, stamp, b)
    ensures HeadOk(c, heads, listed, ClassOf(c[b].size))
    ensures
      var k := ClassOf(c[b].size);
      ListsOk(InsertCells(c, b, heads[k]), heads[k := b], listed + {b}, rank[b := stamp], stamp + 1)
  {
    InsertReady(c, heads, listed, rank, stamp, b);
    InsertNodes(c, heads, listed, rank, stamp, b);
    InsertHeads(c, heads, listed, rank, stamp, b);
    forall x, y | x in listed + {b} && y in listed + {b} ensures Clear(x, y) {
    }
  }

  // ----- tlsf_free_remove -----

  function RemoveCells(c: Cells, b: Addr): Cells
    requires b + HEADER in c && c[b + HEADER].Links?
    requires var l := c[b + HEADER];
      (l.prev != 0 ==> l.prev + HEADER in c && c[l.prev + HEADER].Links?) &&
      (l.next != 0 ==> l.next + HEADER in c && c[l.next + HEADER].Links?)
  {
    var l := c[b + HEADER];
    var c1 := if l.prev != 0 then c[l.prev + HEADER := c[l.prev + HEADER].(next := l.next)] else c;
    if l.next != 0 then c1[l.next + HEADER := c1[l.next + HEADER].(prev := l.prev)] else c1
  }

  function RemoveHeads(c: Cells, heads: Heads, b: Addr): Heads
    requires b in c && c[b].Header? && b + HEADER in c && c[b + HEADER].Links?
  {
    var l := c[b + HEADER];
    if l.prev != 0 then heads else heads[ClassOf(c[b].size) := l.next]
  }

  ghost predicate CanRemove(c: Cells, heads: Heads, listed: set<Addr>, rank: Ranks, stamp: nat, b: Addr) {
    ListsOk(c, heads, listed, rank, stamp) && b in listed
  }

  lemma RemoveReady(c: Cells, heads: Heads, listed: set<Addr>, rank: Ranks, stamp: nat, b: Addr)
    requires CanRemove(c, heads, listed, rank, stamp, b)
    ensures NodeOk(c, heads, listed, rank, b)
    ensures var l := c[b + HEADER];
      && (l.next != 0 ==> NodeOk(c, heads, listed, rank, l.next) && l.next != b)
      && (l.prev != 0 ==> NodeOk(c, heads, listed, rank, l.prev) && l.prev != b)
      && (l.next != 0 && l.prev != 0 ==> l.next != l.prev)
  {
    assert NodeOk(c, heads, listed, rank, b);
    var l := c[b + HEADER];
    if l.next != 0 { assert NodeOk(c, heads, listed, rank, l.next); }
    if l.prev != 0 { assert NodeOk(c, heads, listed, rank, l.prev); }
  }

  lemma RemoveBase(c: Cells, heads: Heads, listed: set<Addr>, rank: Ranks, stamp: nat, b: Addr, a: Addr)
    requires CanRemove(c, heads, listed, rank, stamp, b) && a in listed
    ensures NodeOk(c, heads, listed, rank, b) && NodeOk(c, heads, listed, rank, a)
    ensures NodeBase(RemoveCells(c, b), RemoveHeads(c, heads, b), rank, a)
    ensures RemoveCells(c, b)[a] == c[a]
  {
    RemoveReady(c, heads, listed, rank, stamp, b);
    var l := c[b + HEADER];
    assert NodeOk(c, heads, listed, rank, a);
    assert l.prev != 0 ==> Clear(l.prev, a);
    assert l.next != 0 ==> Clear(l.next, a);
  }

  lemma RemoveNext(c: Cells, heads: Heads, listed: set<Addr>, rank: Ranks, stamp: nat, b: Addr, a: Addr)
    requires CanRemove(c, heads, listed, rank, stamp, b) && a in listed && a != b
    ensures NodeOk(c, heads, listed, rank, b)
    ensures NodeBase(RemoveCells(c, b), RemoveHeads(c, heads, b), rank, a)
    ensures NextLink(RemoveCells(c, b), listed - {b}, rank, a)
  {
    RemoveReady(c, heads, listed, rank, stamp, b);
    RemoveBase(c, heads, listed, rank, stamp, b, a);
    var l := c[b + HEADER];
    var c' := RemoveCells(c, b);
    var n := c'[a + HEADER].next;
    if n != 0 {
      assert n == if a == l.prev then l.next else c[a + HEADER].next;
      RemoveBase(c, heads, listed, rank, stamp, b, n);
    }
  }

  lemma RemovePrev(c: Cells, heads: Heads, listed: set<Addr>, rank: Ranks, stamp: nat, b: Addr, a: Addr)
    requires CanRemove(c, heads, listed, rank, stamp, b) && a in listed && a != b
    ensures NodeOk(c, heads, listed, rank, b)
    ensures NodeBase(RemoveCells(c, b), RemoveHeads(c, heads, b), rank, a)
    ensures PrevLink(RemoveCells(c, b), RemoveHeads(c, heads, b), listed - {b}, a)
  {
    RemoveReady(c, heads, listed, rank, stamp, b);
    RemoveBase(c, heads, listed, rank, stamp, b, a);
    var l := c[b + HEADER];
    var c' := RemoveCells(c, b);
    var p := c'[a + HEADER].prev;
    if p != 0 {
      assert p == if a == l.next then l.prev else c[a + HEADER].prev;
      RemoveBase(c, heads, listed, rank, stamp, b, p);
    }
  }

  lemma RemoveNodes(c: Cells, heads: Heads, listed: set<Addr>, rank: Ranks, stamp: nat, b: Addr)
    requires CanRemove(c, heads, listed, rank, stamp, b)
    ensures NodeOk(c, heads, listed, rank, b)
    ensures NodesOk(RemoveCells(c, b), RemoveHeads(c, heads, b), listed - {b}, rank)
  {
    RemoveReady(c, heads, listed, rank, stamp, b);
    var c', heads', listed' := RemoveCells(c, b), RemoveHeads(c, heads, b), listed - {b};
    forall a {:trigger NodeOk(c', heads', listed', rank, a)} | a in listed'
      ensures NodeOk(c', heads', listed', rank, a)
    {
      RemoveNext(c, heads, listed, rank, stamp, b, a);
      RemovePrev(c, heads, listed, rank, stamp, b, a);
    }
  }

  lemma RemoveHeadsOk(c: Cells, heads: Heads, listed: set<Addr>, rank: Ranks, stamp: nat, b: Addr)
    requires CanRemove(c, heads, listed, rank, stamp, b)
    ensures NodeOk(c, heads, listed, rank, b)
    ensures HeadsOk(RemoveCells(c, b), RemoveHeads(c, heads, b), listed - {b})
  {
    RemoveReady(c, heads, listed, rank, stamp, b);
    var l := c[b + HEADER];
    var c', heads', listed' := RemoveCells(c, b), RemoveHeads(c, heads, b), listed - {b};
    forall j: Class {:trigger HeadOk(c', heads', listed', j)} | j.Valid() ensures HeadOk(c', heads', listed', j) {
      assert HeadOk(c, heads, listed, j);
      var h := heads'[j];
      if h != 0 {
        assert h in listed';
        assert l.prev != 0 ==> Clear(l.prev, h);
        assert l.next != 0 ==> Clear(l.next, h);
      }
    }
  }

  /** Removing keeps every list well linked and drops exactly b. */
  lemma RemoveLists(c: Cells, heads: Heads, listed: set<Addr>, rank: Ranks, stamp: nat, b: Addr)
    requires CanRemove(c, heads, listed, rank, stamp, b)
    ensures NodeOk(c, heads, listed, rank, b)
    ensures ListsOk(RemoveCells(c, b), RemoveHeads(c, heads, b), listed - {b}, rank, stamp)
  {
    RemoveNodes(c, heads, listed, rank, stamp, b);
    RemoveHeadsOk(c, heads, listed, rank, stamp, b);
    forall x, y | x in listed - {b} && y in listed - {b} ensures Clear(x, y) {
    }
  }

  ghost predicate SameNode(c: Cells, c': Cells, a: Addr) {
    && IsHeader(c, a) && IsHeader(c', a) && c'[a].size == c[a].size && c'[a].used == c[a].used
    && a + HEADER in c && a + HEADER in c' && c'[a + HEADER] == c[a + HEADER]
  }

  /** Lists only depend on the size, the used bit and the links of listed blocks. */
  lemma ListsFrame(c: Cells, c': Cells, heads: Heads, listed: set<Addr>, rank: Ranks, stamp: nat)
    requires ListsOk(c, heads, listed, rank, stamp)
    requires forall a {:trigger SameNode(c, c', a)} | a in listed :: SameNode(c, c', a)
    ensures ListsOk(c', heads, listed, rank, stamp)
  {
    forall a {:trigger NodeOk(c', heads, listed, rank, a)} | a in listed ensures NodeOk(c', heads, listed, rank, a) {
      assert NodeOk(c, heads, listed, rank, a);
      var l := c[a + HEADER];
      assert SameNode(c, c', a);
      assert l.next != 0 ==> SameNode(c, c', l.next);
      assert l.prev != 0 ==> SameNode(c, c', l.prev);
    }
    forall k: Class {:trigger HeadOk(c', heads, listed, k)} | k.Valid() ensures HeadOk(c', heads, listed, k) {
      assert HeadOk(c, heads, listed, k);
      assert heads[k] != 0 ==> SameNode(c, c', heads[k]);
    }
  }
}
