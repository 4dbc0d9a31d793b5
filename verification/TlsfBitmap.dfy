/** The two-level bitmap over the free lists, what it says about the lists, and
    what following the links of a list visits. */
module TlsfBitmap {
  import opened Words
  import opened TlsfMapping
  import opened TlsfHeap
  import opened TlsfLists

  ghost predicate SlBit(heads: Heads, sl: seq<nat>, k: Class)
    requires k.fl < |sl|
  {
    k in heads && (Bit(sl[k.fl], k.sl) <==> heads[k] != 0)
  }

  /** second level: bit sl of word fl is set iff list (fl, sl) is non-empty */
  ghost predicate SlOk(heads: Heads, sl: seq<nat>) {
    && |sl| == FL_COUNT
    && (forall f {:trigger sl[f]} | 0 <= f < FL_COUNT :: sl[f] < 0x1_0000_0000)
    && (forall k: Class {:trigger SlBit(heads, sl, k)} | k.Valid() :: SlBit(heads, sl, k))
  }

  /** first level: bit fl is set iff word fl of the second level is non-zero */
  ghost predicate FlOk(sl: seq<nat>, fl: nat) {
    && |sl| == FL_COUNT && fl < MAX_BLOCK
    && (forall f {:trigger Bit(fl, f)} | 0 <= f < FL_COUNT :: Bit(fl, f) <==> sl[f] != 0)
  }

  ghost predicate BitsOk(heads: Heads, sl: seq<nat>, fl: nat) {
    SlOk(heads, sl) && FlOk(sl, fl)
  }

  lemma OrPow2(w: nat, s: nat, n: nat)
    requires s < n && w < Pow2(n)
    ensures 0 < Or(w, Pow2(s)) < Pow2(n)
    ensures forall j: nat :: Bit(Or(w, Pow2(s)), j) <==> Bit(w, j) || j == s
  {
    Pow2Mono(s, n);
    OrBound(w, Pow2(s), n);
    forall j: nat ensures Bit(Or(w, Pow2(s)), j) <==> Bit(w, j) || j == s {
      BitOr(w, Pow2(s), j);
      BitPow2(s, j);
    }
    if Or(w, Pow2(s)) == 0 { BitZero(s); assert false; }
  }

  lemma AndNotPow2(w: nat, s: nat, n: nat)
    requires s < n && w < Pow2(n)
    ensures Pow2(s) < Pow2(n)
    ensures And(w, Pow2(n) - 1 - Pow2(s)) <= w
    ensures forall j: nat :: Bit(And(w, Pow2(n) - 1 - Pow2(s)), j) <==> Bit(w, j) && j != s
  {
    Pow2Mono(s, n);
    var m := Pow2(n) - 1 - Pow2(s);
    AndBound(w, m);
    forall j: nat ensures Bit(And(w, m), j) <==> Bit(w, j) && j != s {
      BitAnd(w, m, j);
      BitHole(n, s, j);
      if Bit(w, j) { BitInRange(w, j, n); }
    }
  }

  lemma SetSlOk(heads: Heads, sl: seq<nat>, k: Class, b: Addr)
    requires SlOk(heads, sl) && k.Valid() && b != 0
    ensures SlOk(heads[k := b], sl[k.fl := Or(sl[k.fl], Pow2(k.sl))]) && Or(sl[k.fl], Pow2(k.sl)) != 0
  {
    Pow2Values();
    var n := 32;
    OrPow2(sl[k.fl], k.sl, n);
    var heads', sl' := heads[k := b], sl[k.fl := Or(sl[k.fl], Pow2(k.sl))];
    forall j: Class {:trigger SlBit(heads', sl', j)} | j.Valid() ensures SlBit(heads', sl', j) {
      assert SlBit(heads, sl, j);
    }
  }

  /** `tlsf_sl_bitmap[fl] |= 1 << sl; tlsf_fl_bitmap |= 1 << fl` after a push */
  lemma SetBits(heads: Heads, sl: seq<nat>, fl: nat, k: Class, b: Addr)
    requires BitsOk(heads, sl, fl) && k.Valid() && b != 0
    ensures BitsOk(heads[k := b], sl[k.fl := Or(sl[k.fl], Pow2(k.sl))], Or(fl, Pow2(k.fl)))
  {
    Pow2Values();
    var n := 39;
    SetSlOk(heads, sl, k, b);
    OrPow2(fl, k.fl, n);
    var sl' := sl[k.fl := Or(sl[k.fl], Pow2(k.sl))];
    var fl' := Or(fl, Pow2(k.fl));
    forall f {:trigger Bit(fl', f)} | 0 <= f < FL_COUNT ensures Bit(fl', f) <==> sl'[f] != 0 {
      assert Bit(fl, f) <==> sl[f] != 0;
    }
  }

  /** the head is replaced by another block: nothing to do */
  lemma KeepBits(heads: Heads, sl: seq<nat>, fl: nat, k: Class, b: Addr)
    requires BitsOk(heads, sl, fl) && k.Valid() && k in heads && heads[k] != 0 && b != 0
    ensures BitsOk(heads[k := b], sl, fl)
  {
    var heads' := heads[k := b];
    forall j: Class {:trigger SlBit(heads', sl, j)} | j.Valid() ensures SlBit(heads', sl, j) {
      assert SlBit(heads, sl, j);
      assert SlBit(heads, sl, k);
    }
  }

  /** the clearing half of tlsf_free_remove, on the second level */
  function ClearSl(sl: seq<nat>, k: Class): seq<nat>
    requires |sl| == FL_COUNT && k.Valid()
  {
    sl[k.fl := And(sl[k.fl], Hole32(k.sl))]
  }

  /** the clearing half of tlsf_free_remove, on the first level */
  function ClearFl(sl: seq<nat>, fl: nat, k: Class): nat
    requires |sl| == FL_COUNT && k.Valid()
  {
    if ClearSl(sl, k)[k.fl] == 0 then And(fl, Hole64(k.fl)) else fl
  }

  lemma ClearSlAt(heads: Heads, sl: seq<nat>, k: Class, j: Class)
    requires SlOk(heads, sl) && k.Valid() && j.Valid()
    ensures SlBit(heads[k := 0], ClearSl(sl, k), j)
  {
    assert SlBit(heads, sl, j);
    if j.fl == k.fl { Cleared(sl[k.fl], k.sl, j.sl); }
  }

  lemma Cleared(w: nat, s: nat, j: nat)
    requires w < 0x1_0000_0000 && s < 32
    ensures Bit(And(w, Hole32(s)), j) <==> Bit(w, j) && j != s
  {
    Pow2Values();
    var n := 32;
    AndNotPow2(w, s, n);
  }

  lemma ClearSlOk(heads: Heads, sl: seq<nat>, k: Class)
    requires SlOk(heads, sl) && k.Valid()
    ensures SlOk(heads[k := 0], ClearSl(sl, k))
  {
    Pow2Values();
    var n := 32;
    AndNotPow2(sl[k.fl], k.sl, n);
    var heads', sl' := heads[k := 0], ClearSl(sl, k);
    forall j: Class {:trigger SlBit(heads', sl', j)} | j.Valid() ensures SlBit(heads', sl', j) {
      ClearSlAt(heads, sl, k, j);
    }
  }

  /** the last block of a list is gone */
  lemma ClearBits(heads: Heads, sl: seq<nat>, fl: nat, k: Class)
    requires BitsOk(heads, sl, fl) && k.Valid() && k in heads && heads[k] != 0
    ensures BitsOk(heads[k := 0], ClearSl(sl, k), ClearFl(sl, fl, k))
  {
    ClearSlOk(heads, sl, k);
    var sl', fl' := ClearSl(sl, k), ClearFl(sl, fl, k);
    Pow2Values();
    var n := 64;
    AndNotPow2(fl, k.fl, n);
    assert SlBit(heads, sl, k);
    if sl[k.fl] == 0 { BitZero(k.sl); assert false; }
    forall f {:trigger Bit(fl', f)} | 0 <= f < FL_COUNT ensures Bit(fl', f) <==> sl'[f] != 0 {
      assert Bit(fl, f) <==> sl[f] != 0;
    }
  }

  // ----- what the lists contain -----

  /** a listed block makes its class's list non-empty */
  lemma {:induction false} ListedHead(c: Cells, heads: Heads, listed: set<Addr>, rank: Ranks, stamp: nat, a: Addr)
    requires ListsOk(c, heads, listed, rank, stamp) && a in listed
    ensures NodeOk(c, heads, listed, rank, a) && heads[ClassOf(c[a].size)] != 0
    decreases stamp - (if a in rank then rank[a] else 0)
  {
    assert NodeOk(c, heads, listed, rank, a);
    var p := c[a + HEADER].prev;
    if p != 0 {
      assert NodeOk(c, heads, listed, rank, p);
      ListedHead(c, heads, listed, rank, stamp, p);
    }
  }

  /** a listed block shows in both bitmap levels */
  lemma ListedBits(c: Cells, heads: Heads, listed: set<Addr>, rank: Ranks, stamp: nat, sl: seq<nat>, fl: nat, a: Addr)
    requires ListsOk(c, heads, listed, rank, stamp) && BitsOk(heads, sl, fl) && a in listed
    ensures NodeOk(c, heads, listed, rank, a)
    ensures var k := ClassOf(c[a].size); k.Valid() && k.fl >= 5 && Bit(sl[k.fl], k.sl) && Bit(fl, k.fl)
  {
    ListedHead(c, heads, listed, rank, stamp, a);
    var k := ClassOf(c[a].size);
    ClassBounds(c[a].size);
    assert SlBit(heads, sl, k);
    if sl[k.fl] == 0 { BitZero(k.sl); assert false; }
    assert Bit(fl, k.fl);
  }

  /** both masked maps empty: no listed block reaches class k */
  lemma NoneAbove(c: Cells, heads: Heads, listed: set<Addr>, rank: Ranks, stamp: nat, sl: seq<nat>, fl: nat, k: Class,
        a: Addr)
    requires ListsOk(c, heads, listed, rank, stamp) && BitsOk(heads, sl, fl) && a in listed
    requires k.Valid() && k.fl >= 5
    requires And(sl[k.fl], MaskFrom(k.sl)) == 0 && And(fl, MaskFrom(k.fl + 1)) == 0
    ensures IsHeader(c, a) && c[a].size < ClassMin(k)
  {
    ListedBits(c, heads, listed, rank, stamp, sl, fl, a);
    var j := ClassOf(c[a].size);
    ClassOrder(c[a].size, k);
    MaskedBit(sl[k.fl], k.sl, j.sl);
    MaskedBit(fl, k.fl + 1, j.fl);
    BitZero(j.sl);
    BitZero(j.fl);
  }

  /** an empty first level means no listed block at all */
  lemma NoneListed(c: Cells, heads: Heads, listed: set<Addr>, rank: Ranks, stamp: nat, sl: seq<nat>)
    requires ListsOk(c, heads, listed, rank, stamp) && BitsOk(heads, sl, 0)
    ensures listed == {}
  {
    if listed != {} {
      var a :| a in listed;
      ListedBits(c, heads, listed, rank, stamp, sl, 0, a);
      BitZero(ClassOf(c[a].size).fl);
      assert false;
    }
  }

  /** the head of a class at or above k fits a request of class k */
  lemma HeadFits(c: Cells, heads: Heads, listed: set<Addr>, rank: Ranks, stamp: nat, sl: seq<nat>, fl: nat, j: Class,
        k: Class)
    requires ListsOk(c, heads, listed, rank, stamp) && BitsOk(heads, sl, fl)
    requires j.Valid() && k.Valid() && k.fl >= 5 && AtLeast(j, k) && Bit(sl[j.fl], j.sl)
    ensures j in heads && heads[j] in listed && IsHeader(c, heads[j]) && c[heads[j]].size >= ClassMin(k)
    ensures ClassOf(c[heads[j]].size) == j
  {
    assert SlBit(heads, sl, j);
    assert HeadOk(c, heads, listed, j);
    assert NodeOk(c, heads, listed, rank, heads[j]);
    ClassOrder(c[heads[j]].size, k);
  }

  /** j is the first class from k on, in search order, whose bit is set */
  ghost predicate Lowest(sl: seq<nat>, fl: nat, k: Class, j: Class)
    requires |sl| == FL_COUNT && k.Valid() && j.Valid()
  {
    if j.fl == k.fl then forall i | k.sl <= i < j.sl :: !Bit(sl[k.fl], i)
    else
      && j.fl > k.fl && (forall i | k.sl <= i < SL_COUNT :: !Bit(sl[k.fl], i))
      && (forall f | k.fl < f < j.fl :: !Bit(fl, f)) && (forall i | 0 <= i < j.sl :: !Bit(sl[j.fl], i))
  }

  /** no listed block is in a class between */
  lemma NoneBetween(c: Cells, heads: Heads, listed: set<Addr>, rank: Ranks, stamp: nat, sl: seq<nat>, fl: nat,
        k: Class, j: Class, a: Addr)
    requires ListsOk(c, heads, listed, rank, stamp) && BitsOk(heads, sl, fl) && a in listed
    requires k.Valid() && k.fl >= 5 && j.Valid() && AtLeast(j, k) && Lowest(sl, fl, k, j)
    ensures IsHeader(c, a) && (c[a].size >= ClassMin(k) ==> c[a].size >= ClassMin(j))
  {
    ListedBits(c, heads, listed, rank, stamp, sl, fl, a);
    ClassOrder(c[a].size, k);
    ClassOrder(c[a].size, j);
  }

  /** the blocks visited by following `next` from a */
  ghost function Walk(c: Cells, heads: Heads, listed: set<Addr>, rank: Ranks, stamp: nat, a: Addr): seq<Addr>
    requires ListsOk(c, heads, listed, rank, stamp) && (a != 0 ==> a in listed)
    decreases if a == 0 then 0 else if a in rank then rank[a] + 1 else 0
  {
    if a == 0 then [] else
      assert NodeOk(c, heads, listed, rank, a);
      assert c[a + HEADER].next != 0 ==> NodeOk(c, heads, listed, rank, c[a + HEADER].next);
      [a] + Walk(c, heads, listed, rank, stamp, c[a + HEADER].next)
  }

  ghost predicate OnWalk(c: Cells, listed: set<Addr>, rank: Ranks, k: Class, top: nat, x: Addr) {
    x in rank && rank[x] <= top && Node(c, listed, k, x)
  }

  /** a walk stays in its class, and ranks fall along it */
  lemma {:induction false} WalkSound(c: Cells, heads: Heads, listed: set<Addr>, rank: Ranks, stamp: nat, a: Addr,
        x: Addr)
    requires ListsOk(c, heads, listed, rank, stamp) && a in listed
    requires x in Walk(c, heads, listed, rank, stamp, a)
    ensures NodeOk(c, heads, listed, rank, a) && OnWalk(c, listed, rank, ClassOf(c[a].size), rank[a], x)
    decreases if a in rank then rank[a] else 0
  {
    assert NodeOk(c, heads, listed, rank, a);
    if x != a {
      var n := c[a + HEADER].next;
      assert n != 0;
      assert NodeOk(c, heads, listed, rank, n);
      WalkSound(c, heads, listed, rank, stamp, n, x);
    }
  }

  ghost predicate NoRepeat(w: seq<Addr>) { forall i, j | 0 <= i < j < |w| :: w[i] != w[j] }

  lemma {:induction false} WalkDistinct(c: Cells, heads: Heads, listed: set<Addr>, rank: Ranks, stamp: nat, a: Addr)
    requires ListsOk(c, heads, listed, rank, stamp) && a in listed
    ensures NoRepeat(Walk(c, heads, listed, rank, stamp, a))
    decreases if a in rank then rank[a] else 0
  {
    assert NodeOk(c, heads, listed, rank, a);
    var n := c[a + HEADER].next;
    if n != 0 {
      assert NodeOk(c, heads, listed, rank, n);
      WalkDistinct(c, heads, listed, rank, stamp, n);
      var rest := Walk(c, heads, listed, rank, stamp, n);
      if a in rest { WalkSound(c, heads, listed, rank, stamp, n, a); }
    }
  }

  lemma {:induction false} WalkComplete(c: Cells, heads: Heads, listed: set<Addr>, rank: Ranks, stamp: nat, a: Addr)
      returns (before: seq<Addr>)
    requires ListsOk(c, heads, listed, rank, stamp) && a in listed
    ensures NodeOk(c, heads, listed, rank, a)
    ensures
      var k := ClassOf(c[a].size);
      HeadOk(c, heads, listed, k) &&
      Walk(c, heads, listed, rank, stamp, heads[k]) == before + Walk(c, heads, listed, rank, stamp, a)
    decreases stamp - (if a in rank then rank[a] else 0)
  {
    assert NodeOk(c, heads, listed, rank, a);
    var k := ClassOf(c[a].size);
    ClassBounds(c[a].size);
    assert HeadOk(c, heads, listed, k);
    var p := c[a + HEADER].prev;
    if p == 0 {
      before := [];
    } else {
      assert NodeOk(c, heads, listed, rank, p);
      var b := WalkComplete(c, heads, listed, rank, stamp, p);
      before := b + [p];
    }
  }

  /** Every listed block is on exactly one list, that of its size class: the
      list of class k visits, each once, exactly the listed blocks of class k. */
  lemma ListContents(c: Cells, heads: Heads, listed: set<Addr>, rank: Ranks, stamp: nat, k: Class, a: Addr)
    requires ListsOk(c, heads, listed, rank, stamp) && k.Valid()
    ensures HeadOk(c, heads, listed, k)
    ensures
      var w := Walk(c, heads, listed, rank, stamp, heads[k]);
      && (a in w <==> a in listed && IsHeader(c, a) && ClassOf(c[a].size) == k)
      && NoRepeat(w)
  {
    assert HeadOk(c, heads, listed, k);
    if heads[k] != 0 {
      if a in Walk(c, heads, listed, rank, stamp, heads[k]) { WalkSound(c, heads, listed, rank, stamp, heads[k], a); }
      WalkDistinct(c, heads, listed, rank, stamp, heads[k]);
    }
    if a in listed && IsHeader(c, a) && ClassOf(c[a].size) == k {
      var before := WalkComplete(c, heads, listed, rank, stamp, a);
      assert Walk(c, heads, listed, rank, stamp, a)[0] == a;
      assert (before + Walk(c, heads, listed, rank, stamp, a))[|before|] == a;
    }
  }
}
