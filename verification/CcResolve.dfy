/** Linking a whole program: exported names, resolution of every reference, and the
    patching of all units. */
module CcResolve {
  import opened Options
  import opened Bytes
  import opened CcUnit
  import opened CcLink
  import opened CcObject
  import opened CcRelink

  // ----- exported names -----

  /** link_define's condition */
  predicate Exported(s: Sym) { s.defined && !s.isStatic }

  /** an entry of the link table: a name and where its definition is */
  datatype LinkSym = LinkSym(name: bytes, u: nat, i: nat)

  /** e is an exported symbol of the program */
  predicate Exports(us: seq<Unit>, e: LinkSym) {
    && e.u < |us| && e.i < |us[e.u].syms|
    && var s := us[e.u].syms[e.i];
    && s.name == e.name && s.defined && !s.isStatic
  }

  /** no name is exported twice */
  ghost predicate Unique(us: seq<Unit>) {
    forall d, e {:trigger Exports(us, d), Exports(us, e)} ::
      Exports(us, d) && Exports(us, e) && d.name == e.name ==> d == e
  }

  /** link_find, on a table with the newest entry first */
  function Lookup(ls: seq<LinkSym>, name: bytes): Option<LinkSym> {
    if ls == [] then None else if ls[0].name == name then Some(ls[0]) else Lookup(ls[1..], name)
  }

  predicate Before(e: LinkSym, u: nat, i: nat) { e.u < u || (e.u == u && e.i < i) }

  /** the table after all symbols before symbol i of unit u, duplicates included */
  function Entries(us: seq<Unit>, u: nat, i: nat): seq<LinkSym>
    requires u <= |us| && i <= if u < |us| then |us[u].syms| else 0
    decreases u, i
  {
    if i > 0 then EntryOf(us, u, i - 1) + Entries(us, u, i - 1)
    else if u > 0 then Entries(us, u - 1, |us[u - 1].syms|)
    else []
  }

  function EntryOf(us: seq<Unit>, u: nat, i: nat): seq<LinkSym>
    requires u < |us| && i < |us[u].syms|
  {
    if Exported(us[u].syms[i]) then [LinkSym(us[u].syms[i].name, u, i)] else []
  }

  function Table(us: seq<Unit>): seq<LinkSym> { Entries(us, |us|, 0) }

  lemma {:induction false} EntriesHas(us: seq<Unit>, u: nat, i: nat, e: LinkSym)
    requires u <= |us| && i <= if u < |us| then |us[u].syms| else 0
    ensures e in Entries(us, u, i) <==> Exports(us, e) && Before(e, u, i)
    decreases u, i
  {
    if i > 0 {
      EntriesHas(us, u, i - 1, e);
    } else if u > 0 {
      EntriesHas(us, u - 1, |us[u - 1].syms|, e);
    }
  }

  predicate Distinct(ls: seq<LinkSym>) { forall a, b | 0 <= a < b < |ls| :: ls[a].name != ls[b].name }

  /** no two exports before symbol i of unit u share a name */
  ghost predicate AloneUpTo(us: seq<Unit>, u: nat, i: nat) {
    forall d, e {:trigger Exports(us, d), Exports(us, e)} |
      Exports(us, d) && Exports(us, e) && Before(d, u, i) && Before(e, u, i) && d.name == e.name :: d == e
  }

  /** a symbol that is not exported, or the end of a unit, adds no export */
  lemma AloneSame(us: seq<Unit>, u: nat, i: nat, u': nat, i': nat)
    requires u <= u' <= |us| && if u == u' then u < |us| && i' == i + 1 <= |us[u].syms| && !Exported(us[u].syms[i])
             else u' == u + 1 && i == |us[u].syms| && i' == 0
    ensures AloneUpTo(us, u, i) <==> AloneUpTo(us, u', i')
  {
    forall e | Exports(us, e) ensures Before(e, u, i) <==> Before(e, u', i') {}
  }

  /** all names so far are distinct exactly when no two exports so far share one */
  lemma {:induction false} DistinctExactly(us: seq<Unit>, u: nat, i: nat)
    requires u <= |us| && i <= if u < |us| then |us[u].syms| else 0
    ensures Distinct(Entries(us, u, i)) <==> AloneUpTo(us, u, i)
    decreases u, i
  {
    if i > 0 {
      DistinctExactly(us, u, i - 1);
      if Exported(us[u].syms[i - 1]) { OneMoreDistinct(us, u, i); } else { NoneMoreDistinct(us, u, i); }
    } else if u > 0 {
      DistinctExactly(us, u - 1, |us[u - 1].syms|);
      AloneSame(us, u - 1, |us[u - 1].syms|, u, 0);
    }
  }

  lemma NoneMoreDistinct(us: seq<Unit>, u: nat, i: nat)
    requires u < |us| && 0 < i <= |us[u].syms| && !Exported(us[u].syms[i - 1])
    requires Distinct(Entries(us, u, i - 1)) <==> AloneUpTo(us, u, i - 1)
    ensures Distinct(Entries(us, u, i)) <==> AloneUpTo(us, u, i)
  {
    assert [] + Entries(us, u, i - 1) == Entries(us, u, i - 1);
    AloneSame(us, u, i - 1, u, i);
  }

  lemma OneMoreDistinct(us: seq<Unit>, u: nat, i: nat)
    requires u < |us| && 0 < i <= |us[u].syms| && Exported(us[u].syms[i - 1])
    requires Distinct(Entries(us, u, i - 1)) <==> AloneUpTo(us, u, i - 1)
    ensures Distinct(Entries(us, u, i)) <==> AloneUpTo(us, u, i)
  {
    var was, now, x := Entries(us, u, i - 1), Entries(us, u, i), LinkSym(us[u].syms[i - 1].name, u, i - 1);
    assert now == [x] + was && Exports(us, x) && Before(x, u, i);
    if Distinct(now) {
      forall a, b | 0 <= a < b < |was| ensures was[a].name != was[b].name { assert now[a + 1].name != now[b + 1].name; }
      forall d, e {:trigger Exports(us, d), Exports(us, e)} |
        Exports(us, d) && Exports(us, e) && Before(d, u, i) && Before(e, u, i) && d.name == e.name
        ensures d == e
      {
        NotAgain(us, u, i, d, x);
        NotAgain(us, u, i, e, x);
      }
    } else if AloneUpTo(us, u, i) {
      assert AloneUpTo(us, u, i - 1);
      var b :| 0 < b < |now| && now[b].name == x.name;
      assert was[b - 1] in was;
      EntriesHas(us, u, i - 1, was[b - 1]);
      assert false;
    }
  }

  /** an earlier export does not have the new name, if names are distinct */
  lemma NotAgain(us: seq<Unit>, u: nat, i: nat, d: LinkSym, x: LinkSym)
    requires u < |us| && 0 < i <= |us[u].syms| && Exported(us[u].syms[i - 1])
    requires x == LinkSym(us[u].syms[i - 1].name, u, i - 1) && Distinct([x] + Entries(us, u, i - 1))
    requires Exports(us, d) && Before(d, u, i)
    ensures d == x || (Before(d, u, i - 1) && d.name != x.name)
  {
    var was := Entries(us, u, i - 1);
    if d.u != u || d.i != i - 1 {
      EntriesHas(us, u, i - 1, d);
      var a :| 0 <= a < |was| && was[a] == d;
      assert ([x] + was)[0] == x && ([x] + was)[a + 1] == d;
    }
  }

  lemma {:induction false} LookupIn(ls: seq<LinkSym>, name: bytes)
    ensures Lookup(ls, name).Some? ==> Lookup(ls, name).value in ls && Lookup(ls, name).value.name == name
    ensures Lookup(ls, name).None? ==> forall e | e in ls :: e.name != name
    decreases |ls|
  {
    if ls != [] && ls[0].name != name { LookupIn(ls[1..], name); }
  }

  /** The table has an entry for a name exactly when the program exports it, and
      then it is the export. */
  lemma TableFinds(us: seq<Unit>, name: bytes)
    ensures Lookup(Table(us), name).Some? ==> Exports(us, Lookup(Table(us), name).value)
    ensures Lookup(Table(us), name).Some? ==> Lookup(Table(us), name).value.name == name
    ensures Lookup(Table(us), name).None? ==> forall e | Exports(us, e) :: e.name != name
  {
    LookupIn(Table(us), name);
    if Lookup(Table(us), name).Some? {
      EntriesHas(us, |us|, 0, Lookup(Table(us), name).value);
    } else {
      forall e | Exports(us, e) ensures e.name != name { EntriesHas(us, |us|, 0, e); }
    }
  }

  // ----- the table as the linker builds it -----

  class LinkTable {
    /** newest first */
    var syms: seq<LinkSym>

    constructor ()
      ensures syms == []
    {
      syms := [];
    }

    /** link_find */
    method Find(name: bytes) returns (r: Option<LinkSym>)
      ensures r == Lookup(syms, name)
    {
      var k := 0;
      assert syms[0..] == syms;
      while k < |syms|
        invariant 0 <= k <= |syms| && Lookup(syms, name) == Lookup(syms[k..], name)
      {
        assert syms[k..][0] == syms[k] && syms[k..][1..] == syms[k + 1..];
        if syms[k].name == name { return Some(syms[k]); }
        k := k + 1;
      }
      r := None;
    }

    /** link_define; false is the error for a duplicate symbol */
    method Define(s: Sym, u: nat, i: nat) returns (ok: bool)
      modifies this
      ensures ok <==> !Exported(s) || Lookup(old(syms), s.name).None?
      ensures syms == (if ok && Exported(s) then [LinkSym(s.name, u, i)] else []) + old(syms)
    {
      if !Exported(s) { return true; }
      var found := Find(s.name);
      if found.Some? { return false; }
      syms := [LinkSym(s.name, u, i)] + syms;
      ok := true;
    }

    /** the loop of link_and_write over all symbols of all units */
    method DefineAll(us: seq<Unit>) returns (ok: bool)
      requires syms == []
      modifies this
      ensures ok <==> Unique(us)
      ensures ok ==> syms == Table(us)
    {
      for u := 0 to |us|
        invariant syms == Entries(us, u, 0) && Distinct(syms)
      {
        for i := 0 to |us[u].syms|
          invariant syms == Entries(us, u, i) && Distinct(syms)
        {
          ok := Define(us[u].syms[i], u, i);
          DefinedOne(us, u, i);
          if !ok {
            StaysDouble(us, u, i + 1);
            return;
          }
        }
      }
      DistinctExactly(us, |us|, 0);
      ok := true;
    }
  }

  lemma DefinedOne(us: seq<Unit>, u: nat, i: nat)
    requires u < |us| && i < |us[u].syms| && Distinct(Entries(us, u, i))
    ensures
      var s := us[u].syms[i];
      Distinct(Entries(us, u, i + 1)) <==> !Exported(s) || Lookup(Entries(us, u, i), s.name).None?
  {
    var s, was, now := us[u].syms[i], Entries(us, u, i), Entries(us, u, i + 1);
    LookupIn(was, s.name);
    if Exported(s) {
      assert now[0].name == s.name && now[1..] == was;
      if Lookup(was, s.name).Some? {
        var a :| 0 <= a < |was| && was[a] == Lookup(was, s.name).value;
        assert now[a + 1] == was[a];
      } else {
        forall a, b | 0 <= a < b < |now| ensures now[a].name != now[b].name {
          assert now[b] == was[b - 1];
          if a > 0 { assert now[a] == was[a - 1]; }
        }
      }
    }
  }

  /** a duplicate so far is a duplicate of the program */
  lemma StaysDouble(us: seq<Unit>, u: nat, i: nat)
    requires u < |us| && i <= |us[u].syms| && !Distinct(Entries(us, u, i))
    ensures !Unique(us)
  {
    DistinctExactly(us, u, i);
  }

  // ----- resolving references -----

  /** where the three sections of a unit have been put */
  datatype Bases = Bases(text: nat, data: nat, bss: nat)

  function OwnAddress(s: Sym, b: Bases): nat {
    s.offset + if s.sec == SEC_TEXT then b.text else if s.sec == SEC_DATA then b.data else b.bss
  }

  /** resolve_sym; None is the error for an undefined symbol */
  function Resolve(us: seq<Unit>, bs: seq<Bases>, ls: seq<LinkSym>, u: nat, i: nat): Option<nat>
    requires |bs| == |us| && u < |us| && i < |us[u].syms|
  {
    var s := us[u].syms[i];
    if s.defined then Some(OwnAddress(s, bs[u]))
    else
      match Lookup(ls, s.name)
      case None => None
      case Some(e) => if Exports(us, e) then Some(OwnAddress(us[e.u].syms[e.i], bs[e.u])) else None
  }

  function AddrsOf(us: seq<Unit>, bs: seq<Bases>, u: nat): Addrs
    requires |bs| == |us| && u < |us|
  {
    seq(|us[u].syms|, i requires 0 <= i < |us[u].syms| => Resolve(us, bs, Table(us), u, i))
  }

  /** A defined symbol has its own address; another one has the address of the one
      exported definition of its name, and none if there is no such definition. */
  lemma ResolvesRight(us: seq<Unit>, bs: seq<Bases>, u: nat, i: nat)
    requires |bs| == |us| && u < |us| && i < |us[u].syms| && Unique(us)
    ensures
      var s, a := us[u].syms[i], AddrsOf(us, bs, u)[i];
      && (s.defined ==> a == Some(OwnAddress(s, bs[u])))
      && (!s.defined ==>
            && (forall e | Exports(us, e) && e.name == s.name :: a == Some(OwnAddress(us[e.u].syms[e.i], bs[e.u])))
            && (a.None? <==> forall e | Exports(us, e) :: e.name != s.name))
  {
    TableFinds(us, us[u].syms[i].name);
  }

  // ----- the program -----

  ghost predicate SitesInside(us: seq<Unit>) { forall u | 0 <= u < |us| :: RelocsOk(us[u].relocs, |us[u].code|) }

  /** o is the code and data of unit v after linking */
  ghost predicate UnitLinked(us: seq<Unit>, bs: seq<Bases>, v: nat, o: (bytes, bytes))
    requires |bs| == |us| && SitesInside(us) && v < |us|
  {
    LinkUnit(us[v], AddrsOf(us, bs, v), bs[v].text) == Some(o)
  }

  /** code and data of every unit after linking, unless that is an error */
  ghost predicate Links(us: seq<Unit>, bs: seq<Bases>, out: seq<(bytes, bytes)>)
    requires |bs| == |us| && SitesInside(us)
  {
    && Unique(us) && |out| == |us|
    && forall v: nat {:trigger UnitLinked(us, bs, v, out[v])} | v < |us| :: UnitLinked(us, bs, v, out[v])
  }

  /** the part of link_and_write that resolves and patches */
  method LinkProgram(us: seq<Unit>, bs: seq<Bases>) returns (ok: bool, out: seq<(bytes, bytes)>)
    requires |bs| == |us| && SitesInside(us)
    ensures ok ==> Links(us, bs, out)
    ensures !ok ==> forall other :: !Links(us, bs, other)
  {
    out := [];
    var table := new LinkTable();
    ok := table.DefineAll(us);
    if !ok { return; }
    for u := 0 to |us|
      invariant table.syms == Table(us) && fresh(table) && |out| == u
      invariant forall v: nat {:trigger UnitLinked(us, bs, v, out[v])} | v < u :: UnitLinked(us, bs, v, out[v])
    {
      var addrs := seq(|us[u].syms|, i requires 0 <= i < |us[u].syms| => Resolve(us, bs, Table(us), u, i));
      var code := Fresh(us[u].code);
      var data := Fresh(us[u].data);
      ok := PatchUnit(us[u], addrs, bs[u].text, code, data);
      if !ok {
        forall other | |other| == |us| ensures !Links(us, bs, other) { assert !UnitLinked(us, bs, u, other[u]); }
        return;
      }
      out := out + [(code[..], data[..])];
      assert UnitLinked(us, bs, u, out[u]);
    }
    ok := true;
  }

  method Fresh(b: bytes) returns (a: array<byte>)
    ensures fresh(a) && a[..] == b
  {
    a := new byte[|b|](i requires 0 <= i < |b| => b[i]);
  }

  // ----- through object files -----

  lemma MirrorNames(u: Unit, i: nat)
    requires i < |u.syms|
    ensures Mirror(u).syms[i] == u.syms[i].(drel := Reversed(u.syms[i].drel))
  {
  }

  /** the units with all relocation lists reversed, as they come back from files */
  ghost predicate Mirrored(us: seq<Unit>, vs: seq<Unit>) {
    |vs| == |us| && forall u {:trigger vs[u]} | 0 <= u < |us| :: vs[u] == Mirror(us[u])
  }

  /** unit u of both programs exports the same */
  ghost predicate SameEntries(us: seq<Unit>, vs: seq<Unit>, u: nat)
    requires |vs| == |us| && u < |us|
  {
    && |vs[u].syms| == |us[u].syms|
    && forall i: nat {:trigger EntryOf(vs, u, i)} | i < |us[u].syms| :: EntryOf(vs, u, i) == EntryOf(us, u, i)
  }

  ghost predicate AllSameEntries(us: seq<Unit>, vs: seq<Unit>) {
    |vs| == |us| && forall u: nat {:trigger SameEntries(us, vs, u)} | u < |us| :: SameEntries(us, vs, u)
  }

  lemma MirrorSameEntries(us: seq<Unit>, vs: seq<Unit>)
    requires Mirrored(us, vs)
    ensures AllSameEntries(us, vs)
  {
    forall u: nat {:trigger SameEntries(us, vs, u)} | u < |us| ensures SameEntries(us, vs, u) {
      assert vs[u] == Mirror(us[u]);
      forall i: nat {:trigger EntryOf(vs, u, i)} | i < |us[u].syms| ensures EntryOf(vs, u, i) == EntryOf(us, u, i) {
        MirrorNames(us[u], i);
      }
    }
  }

  lemma {:induction false} EntriesSame(us: seq<Unit>, vs: seq<Unit>, u: nat, i: nat)
    requires AllSameEntries(us, vs) && u <= |us| && i <= if u < |us| then |us[u].syms| else 0
    ensures u < |us| ==> |vs[u].syms| == |us[u].syms|
    ensures Entries(vs, u, i) == Entries(us, u, i)
    decreases u, i
  {
    assert u < |us| ==> SameEntries(us, vs, u);
    if i > 0 {
      EntriesSame(us, vs, u, i - 1);
    } else if u > 0 {
      assert SameEntries(us, vs, u - 1);
      EntriesSame(us, vs, u - 1, |us[u - 1].syms|);
    }
  }

  lemma MirrorEntries(us: seq<Unit>, vs: seq<Unit>)
    requires Mirrored(us, vs)
    ensures Entries(vs, |vs|, 0) == Entries(us, |us|, 0)
  {
    MirrorSameEntries(us, vs);
    EntriesSame(us, vs, |us|, 0);
  }

  lemma MirrorExports(us: seq<Unit>, vs: seq<Unit>, e: LinkSym)
    requires Mirrored(us, vs)
    ensures Exports(vs, e) <==> Exports(us, e)
    ensures Exports(us, e) ==> OwnAddressSame(us[e.u].syms[e.i], vs[e.u].syms[e.i])
  {
    if e.u < |us| && e.i < |us[e.u].syms| { MirrorNames(us[e.u], e.i); }
  }

  ghost predicate OwnAddressSame(s: Sym, t: Sym) {
    forall b {:trigger OwnAddress(s, b)} :: OwnAddress(t, b) == OwnAddress(s, b)
  }

  /** names resolve alike */
  lemma MirrorAddrs(us: seq<Unit>, vs: seq<Unit>, bs: seq<Bases>, u: nat)
    requires Mirrored(us, vs) && |bs| == |us| && u < |us|
    ensures AddrsOf(vs, bs, u) == AddrsOf(us, bs, u)
  {
    MirrorEntries(us, vs);
    assert vs[u] == Mirror(us[u]);
    forall i: nat | i < |us[u].syms| ensures Resolve(vs, bs, Table(vs), u, i) == Resolve(us, bs, Table(us), u, i) {
      MirrorResolves(us, vs, bs, Table(us), u, i);
    }
  }

  lemma MirrorResolves(us: seq<Unit>, vs: seq<Unit>, bs: seq<Bases>, ls: seq<LinkSym>, u: nat, i: nat)
    requires Mirrored(us, vs) && |bs| == |us| && u < |us| && i < |us[u].syms|
    ensures i < |vs[u].syms| && Resolve(vs, bs, ls, u, i) == Resolve(us, bs, ls, u, i)
  {
    assert vs[u] == Mirror(us[u]);
    MirrorNames(us[u], i);
    var e := Lookup(ls, us[u].syms[i].name);
    if e.Some? { MirrorExports(us, vs, e.value); }
  }

  lemma MirrorUnique(us: seq<Unit>, vs: seq<Unit>)
    requires Mirrored(us, vs)
    ensures Unique(vs) <==> Unique(us)
  {
    MirrorEntries(us, vs);
    DistinctExactly(us, |us|, 0);
    DistinctExactly(vs, |vs|, 0);
  }

  /** the units of a program, written to files and read back */
  ghost predicate ReadBack(us: seq<Unit>, vs: seq<Unit>) {
    && |vs| == |us|
    && forall u {:trigger vs[u]} | 0 <= u < |us| ::
      Fits(us[u]) && SitesApart(us[u].relocs) && ReadUnit(WriteUnit(us[u])) == Some(vs[u])
  }

  /** one unit of the program: the same code, and data that differs unless settled */
  lemma UnitRelinks(us: seq<Unit>, vs: seq<Unit>, bs: seq<Bases>, v: nat, o: (bytes, bytes))
    requires |bs| == |us| && SitesInside(us) && SitesInside(vs) && Mirrored(us, vs) && v < |us|
    requires SitesApart(us[v].relocs) && UnitLinked(us, bs, v, o)
    ensures LinkedUnit(vs, bs, v).Some? && SameUnit(us, bs, v, o, LinkedUnit(vs, bs, v).value)
  {
    assert vs[v] == Mirror(us[v]);
    MirrorAddrs(us, vs, bs, v);
    MirrorLinks(us[v], AddrsOf(us, bs, v), bs[v].text);
  }

  function LinkedUnit(us: seq<Unit>, bs: seq<Bases>, v: nat): Option<(bytes, bytes)>
    requires |bs| == |us| && v < |us| && RelocsOk(us[v].relocs, |us[v].code|)
  {
    LinkUnit(us[v], AddrsOf(us, bs, v), bs[v].text)
  }

  lemma MirrorInside(us: seq<Unit>, vs: seq<Unit>)
    requires SitesInside(us) && ReadBack(us, vs)
    ensures Mirrored(us, vs) && SitesInside(vs)
  {
    forall v | 0 <= v < |us| ensures vs[v] == Mirror(us[v]) && RelocsOk(vs[v].relocs, |vs[v].code|) {
      ObjectRoundTrip(us[v]);
    }
  }

  /** unit v is the same through its file as far as its data is settled */
  ghost predicate SameUnit(us: seq<Unit>, bs: seq<Bases>, v: nat, o: (bytes, bytes), o': (bytes, bytes))
    requires |bs| == |us| && v < |us|
  {
    o'.0 == o.0 && (o'.1 == o.1 <==> AllSettled(us[v].syms, AddrsOf(us, bs, v), |us[v].data|))
  }

  /** Separate compilation: a program whose units have been through object files
      links when the program in memory does, to the same code, and to the same data
      in a unit exactly when every byte of its data is settled. */
  lemma ProgramRelinks(us: seq<Unit>, vs: seq<Unit>, bs: seq<Bases>, out: seq<(bytes, bytes)>)
    returns (out': seq<(bytes, bytes)>)
    requires |bs| == |us| && SitesInside(us) && ReadBack(us, vs) && Links(us, bs, out)
    ensures SitesInside(vs) && Links(vs, bs, out')
    ensures forall v: nat {:trigger SameUnit(us, bs, v, out[v], out'[v])} | v < |us| ::
      SameUnit(us, bs, v, out[v], out'[v])
  {
    MirrorInside(us, vs);
    MirrorUnique(us, vs);
    forall v: nat | v < |us|
      ensures LinkedUnit(vs, bs, v).Some? && SameUnit(us, bs, v, out[v], LinkedUnit(vs, bs, v).value)
    {
      assert UnitLinked(us, bs, v, out[v]) && vs[v] == Mirror(us[v]);
      UnitRelinks(us, vs, bs, v, out[v]);
    }
    out' := seq(|us|, v requires 0 <= v < |us| => LinkedUnit(vs, bs, v).value);
    forall v: nat {:trigger UnitLinked(vs, bs, v, out'[v])} | v < |us| ensures UnitLinked(vs, bs, v, out'[v]) {
      assert LinkedUnit(vs, bs, v).Some?;
    }
  }
}
