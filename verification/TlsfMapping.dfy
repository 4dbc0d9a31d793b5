/** Size classes of the two-level segregated fit allocator: which list a block
    of a given size lives on, and where a search for a given size must start. */
module TlsfMapping {
  import opened Options
  import opened Words

  const ALIGN: nat := 16
  const HEADER: nat := 16
  const MIN_BLOCK: nat := 32
  const SL_COUNT: nat := 32
  const FL_MAX: nat := 38
  const FL_COUNT: nat := 39
  const SMALL_BLOCK: nat := 32
  const MAX_BLOCK: nat := 0x80_0000_0000

  datatype Class = Class(fl: nat, sl: nat) {
    predicate Valid() { fl < FL_COUNT && sl < SL_COUNT }
  }

  lemma LevelAtLeastFive(size: nat)
    requires size >= SMALL_BLOCK
    ensures Log2(size) >= 5
  {
    Pow2Values();
    Log2Bounds(size);
    var f := Log2(size);
    if f < 5 { Pow2Mono(f + 1, 5); assert false; }
  }

  /** tlsf_mapping_insert */
  function MappingInsert(size: nat): Option<Class> {
    if size < SMALL_BLOCK then Some(Class(0, size / ALIGN))
    else
      var f := Log2(size);
      if f > FL_MAX then None
      else LevelAtLeastFive(size); Some(Class(f, size / Pow2(f - 5) % SL_COUNT))
  }

  /** tlsf_mapping_search: round up so that every block of the class is large enough */
  function MappingSearch(size: nat): Option<Class> {
    if size < SMALL_BLOCK then MappingInsert(size)
    else
      var f := Log2(size);
      LevelAtLeastFive(size);
      if f > FL_MAX then None
      else if size > WORD_MAX - 1 - (Pow2(f - 5) - 1) then None
      else MappingInsert(size + (Pow2(f - 5) - 1))
  }

  /** tlsf_class_min */
  function ClassMin(k: Class): nat {
    if k.fl < 5 then k.sl * ALIGN else Pow2(k.fl) + k.sl * Pow2(k.fl - 5)
  }

  /** the list a block of this size belongs to */
  function ClassOf(size: nat): Class {
    match MappingInsert(size) case Some(k) => k case None => Class(0, 0)
  }

  /** list order used by tlsf_find: first level, then second level */
  predicate AtLeast(a: Class, b: Class) {
    a.fl > b.fl || (a.fl == b.fl && a.sl >= b.sl)
  }

  predicate BlockSize(size: nat) { MIN_BLOCK <= size < MAX_BLOCK }

  lemma Log2Range(size: nat)
    requires BlockSize(size)
    ensures 5 <= Log2(size) <= FL_MAX
  {
    LevelAtLeastFive(size);
    Pow2Values();
    Log2Bounds(size);
    var f := Log2(size);
    if f > FL_MAX { Pow2Mono(39, f); assert false; }
  }

  lemma MulMono(a: nat, b: nat, q: nat)
    requires a <= b
    ensures a * q <= b * q
  {
    assert (b - a) * q >= 0;
  }

  /** the arithmetic of one second-level step: q is the step width 2^(fl-5) */
  lemma StepBounds(size: nat, q: nat)
    requires q > 0 && 32 * q <= size < 64 * q
    ensures 32 <= size / q < 64
    ensures size / q % 32 == size / q - 32
    ensures size / q * q <= size < size / q * q + q
  {
    var d := size / q;
    assert d * q <= size < d * q + q;
    if d >= 64 { MulMono(64, d, q); }
  }

  /** A block of size s is on the list whose half-open size range contains s. */
  lemma ClassBounds(size: nat)
    requires BlockSize(size)
    ensures MappingInsert(size).Some? && MappingInsert(size).value == ClassOf(size)
    ensures ClassOf(size).Valid() && 5 <= ClassOf(size).fl
    ensures ClassMin(ClassOf(size)) <= size < ClassMin(ClassOf(size)) + Pow2(ClassOf(size).fl - 5)
    ensures Pow2(ClassOf(size).fl) <= size < 2 * Pow2(ClassOf(size).fl)
  {
    Log2Range(size);
    Log2Bounds(size);
    var f := Log2(size);
    var q := Pow2(f - 5);
    FiveSteps(f);
    StepBounds(size, q);
    ClassIs(size, f, q, size / q - 32);
    FromBase(size / q, q);
  }

  lemma ClassIs(size: nat, f: nat, q: nat, sl: nat)
    requires BlockSize(size) && f == Log2(size) && 5 <= f <= FL_MAX && q == Pow2(f - 5) && size / q % 32 == sl < 32
    ensures MappingInsert(size) == Some(Class(f, sl)) && ClassMin(Class(f, sl)) == Pow2(f) + sl * q
  {
  }

  lemma FromBase(d: nat, q: nat)
    requires d >= 32
    ensures d * q == 32 * q + (d - 32) * q
  {
  }

  lemma FiveSteps(f: nat)
    requires f >= 5
    ensures Pow2(f) == 32 * Pow2(f - 5)
  {
    Pow2Sum(5, f - 5);
    Pow2Values();
  }

  /** Good fit, first half: a class at or above k holds only blocks of at least
      ClassMin(k), and a block of at least ClassMin(k) is at or above k. */
  lemma ClassOrder(size: nat, k: Class)
    requires BlockSize(size) && k.Valid() && k.fl >= 5
    ensures AtLeast(ClassOf(size), k) <==> size >= ClassMin(k)
  {
    ClassBounds(size);
    OrderedClasses(size, ClassOf(size), k);
  }

  lemma OrderedClasses(size: nat, c: Class, k: Class)
    requires c.Valid() && c.fl >= 5 && k.Valid() && k.fl >= 5
    requires ClassMin(c) <= size < ClassMin(c) + Pow2(c.fl - 5)
    requires Pow2(c.fl) <= size < 2 * Pow2(c.fl)
    ensures AtLeast(c, k) <==> size >= ClassMin(k)
  {
    ClassMinRange(k);
    if c.fl > k.fl {
      Pow2Mono(k.fl, c.fl);
    } else if c.fl < k.fl {
      Pow2Mono(c.fl, k.fl);
    } else {
      SameLevel(size, Pow2(k.fl), Pow2(k.fl - 5), c.sl, k.sl);
    }
  }

  lemma ClassMinRange(k: Class)
    requires k.Valid() && k.fl >= 5
    ensures Pow2(k.fl) <= ClassMin(k) < 2 * Pow2(k.fl)
  {
    FiveSteps(k.fl);
    LevelRange(Pow2(k.fl), Pow2(k.fl - 5), k.sl);
  }

  lemma LevelRange(p: nat, q: nat, sl: nat)
    requires p == 32 * q && q >= 1 && sl < 32
    ensures p <= p + sl * q < 2 * p
  {
    MulMono(sl, 31, q);
  }

  lemma SameLevel(size: nat, p: nat, q: nat, a: nat, b: nat)
    requires p + a * q <= size < p + a * q + q
    ensures a >= b <==> size >= p + b * q
  {
    if a >= b { MulMono(b, a, q); } else { MulMono(a + 1, b, q); }
  }

  /** the width of a second-level step at this size */
  function StepOf(size: nat): nat
    requires size >= SMALL_BLOCK
  {
    LevelAtLeastFive(size);
    Pow2(Log2(size) - 5)
  }

  /** Good fit, second half: the class a search starts from holds only blocks
      that are large enough; the search gives up only within one step of the
      largest representable size. */
  lemma SearchBounds(size: nat)
    requires BlockSize(size)
    ensures MappingSearch(size).Some? <==> size + StepOf(size) <= MAX_BLOCK
    ensures MappingSearch(size).Some? ==>
      var k := MappingSearch(size).value;
      k.Valid() && k.fl >= 5 && size <= ClassMin(k) < size + StepOf(size) && ClassMin(k) < MAX_BLOCK
  {
    Log2Range(size);
    StepSmall(size);
    var s := size + (StepOf(size) - 1);
    if s < MAX_BLOCK {
      ClassBounds(s);
      RoundedUp(size);
    } else {
      TooLarge(s, 39);
    }
  }

  lemma TooLarge(s: nat, n: nat)
    requires s >= MAX_BLOCK && n == 39
    ensures Log2(s) > 38
  {
    Pow2Values();
    Log2Bounds(s);
    if Log2(s) < n { Pow2Mono(Log2(s) + 1, n); }
  }

  lemma StepSmall(size: nat)
    requires BlockSize(size)
    ensures Log2(size) >= 5
    ensures 32 * StepOf(size) == Pow2(Log2(size)) <= size < 64 * StepOf(size)
  {
    Log2Range(size);
    Log2Bounds(size);
    FiveSteps(Log2(size));
  }

  lemma RoundedUp(size: nat)
    requires BlockSize(size) && size + (StepOf(size) - 1) < MAX_BLOCK
    ensures ClassMin(ClassOf(size + (StepOf(size) - 1))) >= size
  {
    StepSmall(size);
    var f, q := Log2(size), StepOf(size);
    var s := size + (q - 1);
    if s < 64 * q {
      Log2Unique(s, f);
      SameLevelRound(size, s, q);
    } else {
      NextLevelRound(size, s, f, q);
    }
  }

  /** rounding up crosses into the next power of two */
  lemma NextLevelRound(size: nat, s: nat, f: nat, q: nat)
    requires BlockSize(size) && BlockSize(s) && 32 * q == Pow2(f) && size < 64 * q <= s < 128 * q
    ensures ClassMin(ClassOf(s)) >= size
  {
    assert Pow2(f + 1) == 64 * q && Pow2(f + 2) == 128 * q;
    Log2Unique(s, f + 1);
    ClassBounds(s);
    ClassLevel(s);
    ClassMinRange(ClassOf(s));
  }

  lemma ClassLevel(size: nat)
    requires BlockSize(size)
    ensures ClassOf(size).fl == Log2(size)
  {
    Log2Range(size);
  }

  lemma SameLevelRound(size: nat, s: nat, q: nat)
    requires BlockSize(size) && BlockSize(s) && q == StepOf(size) && s == size + (q - 1)
    requires Log2(s) == Log2(size)
    ensures ClassMin(ClassOf(s)) >= size
  {
    ClassBounds(s);
    assert Pow2(ClassOf(s).fl - 5) == q by { StepSmall(size); Log2Range(s); }
  }

  /** tlsf_size_to_block: the block size a request of `size` bytes needs */
  function SizeToBlock(size: nat): (need: Option<nat>)
    ensures need.Some? ==> BlockSize(need.value) && need.value % ALIGN == 0 && size + HEADER <= need.value
    ensures need.Some? && size > HEADER ==> need.value < size + HEADER + ALIGN
    ensures need.Some? && size <= HEADER ==> need.value == MIN_BLOCK
    ensures need.None? <==> size == 0 || size > MAX_BLOCK - HEADER - ALIGN
  {
    if size == 0 || size > WORD_MAX - 1 - (ALIGN - 1) then None
    else
      var aligned := (size + ALIGN - 1) / ALIGN * ALIGN;
      if aligned > WORD_MAX - 1 - HEADER then None
      else
        var n := aligned + HEADER;
        var need := if n < MIN_BLOCK then MIN_BLOCK else n;
        if need >= MAX_BLOCK then None else Some(need)
  }
}
