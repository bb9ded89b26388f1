/** The kernel's `MemorySpace`: an area map and a page table, updated in place over shared physical memory. */
module MemorySpaces {
  import opened Sv39
  import opened PageTree
  import opened PageTables
  import opened AddressSpace
  import opened MmapSearch

  type Pages = map<nat, seq<Byte>>

  /** The frames behind allocated pages are all in use as data pages. */
  ghost predicate FramesLive(areas: Areas, pages: Pages) {
    forall k, v | k in areas && v in areas[k].pages :: areas[k].pages[v] in pages
  }

  function FramesOf(a: Area): set<nat> {
    set v | v in a.pages :: a.pages[v]
  }

  function PageFrames(areas: Areas): set<nat> {
    set k, v | k in areas && v in areas[k].pages :: areas[k].pages[v]
  }

  /** What one address space may do to physical memory: frames it does not own stay as they are, what
      it owns afterwards was its own or free, and what becomes free was its own. */
  ghost predicate Confined(t: Tables, pg: Pages, free: set<nat>, own: set<nat>,
                           t': Tables, pg': Pages, free': set<nat>, own': set<nat>) {
    && (forall p | p in t && p !in own :: p in t' && t'[p] == t[p])
    && (forall p | p in pg && p !in own :: p in pg' && pg'[p] == pg[p])
    && own' <= own + free
    && free' <= free + own
  }

  lemma ConfinedTransitive(t: Tables, pg: Pages, f: set<nat>, o: set<nat>,
                           t1: Tables, pg1: Pages, f1: set<nat>, o1: set<nat>,
                           t2: Tables, pg2: Pages, f2: set<nat>, o2: set<nat>)
    requires Confined(t, pg, f, o, t1, pg1, f1, o1) && Confined(t1, pg1, f1, o1, t2, pg2, f2, o2)
    requires f !! t.Keys && f !! pg.Keys
    ensures Confined(t, pg, f, o, t2, pg2, f2, o2)
  {
  }

  /** Adding one fresh page and tables from free frames is confined. */
  lemma AllocConfined(t: Tables, pg: Pages, free: set<nat>, ot: set<nat>, pf: set<nat>,
                      t': Tables, pg': Pages, free': set<nat>, ot': set<nat>, pf': set<nat>, ppn: nat)
    requires forall p | p in t && p !in ot :: p in t' && t'[p] == t[p]
    requires forall p | p in pg && p != ppn :: p in pg' && pg'[p] == pg[p]
    requires ppn in free && ppn !in pg
    requires free' <= free && ot' <= ot + free && pf' <= pf + {ppn}
    ensures Confined(t, pg, free, ot + pf, t', pg', free', ot' + pf')
  {
  }

  lemma FreshUnused(areas: Areas, pages: Pages, ppn: nat)
    requires FramesLive(areas, pages) && ppn !in pages
    ensures FrameUnused(areas, ppn)
  {
  }

  lemma Rewritten(pages: Pages, p: nat, a: seq<Byte>, b: seq<Byte>)
    ensures pages[p := a][p := b] == pages[p := b]
  {
  }

  lemma LiveMore(areas: Areas, pages: Pages, pages': Pages)
    requires FramesLive(areas, pages) && forall p | p in pages :: p in pages'
    ensures FramesLive(areas, pages')
  {
  }

  lemma PageTranslated(s: Space, k: nat, v: nat)
    requires PagesAgree(s) && k in s.areas && v in s.areas[k].pages
    ensures v in s.flat && s.flat[v] == PageEntry(s.areas[k], v)
  {
  }

  lemma FaultLive(s: Space, k: nat, v: nat, ppn: nat, pages: Pages, pages': Pages)
    requires FramesLive(s.areas, pages) && k in s.areas && ppn in pages'
    requires forall p | p in pages :: p in pages'
    ensures FramesLive(Fault(s, k, v, ppn).areas, pages')
    ensures PageFrames(Fault(s, k, v, ppn).areas) <= PageFrames(s.areas) + {ppn}
  {
    var areas := Fault(s, k, v, ppn).areas;
    forall p | p in PageFrames(areas) ensures p in PageFrames(s.areas) + {ppn} {
      var j, u :| j in areas && u in areas[j].pages && p == areas[j].pages[u];
      if !(j == k && u == v) { assert j in s.areas && u in s.areas[j].pages && p == s.areas[j].pages[u]; }
    }
  }

  lemma NotYetAllocated(s: Space, k: nat, v: nat)
    requires Wf(s) && k in s.areas && s.areas[k].kind == Lazy && s.areas[k].start <= v < s.areas[k].end && v !in s.areas[k].pages
    ensures v < LOW_VPN && v !in s.flat
  {
    assert AreaOk(k, s.areas[k]);
    TranslatedByOwner(s, k, v);
  }

  /** Everything a fault owes once its page is mapped to a fresh frame. */
  lemma FaultDone(s: Space, k: nat, v: nat, ppn: nat, t: Tables, pg: Pages, free: set<nat>, ot: set<nat>,
                  t': Tables, pg': Pages, free': set<nat>, ot': set<nat>)
    requires Wf(s) && FramesLive(s.areas, pg) && ppn in free && ppn < PPN_LIMIT && free !! pg.Keys
    requires k in s.areas && s.areas[k].kind == Lazy && s.areas[k].start <= v < s.areas[k].end && v !in s.areas[k].pages
    requires pg' == pg[ppn := ZeroPage()] && TablesKept(t, t', ot) && free' <= free && ot' <= ot + free
    ensures Enabled(s, FaultOp(k, v, ppn)) && Wf(Fault(s, k, v, ppn)) && FramesLive(Fault(s, k, v, ppn).areas, pg')
    ensures Confined(t, pg, free, ot + PageFrames(s.areas), t', pg', free', ot' + PageFrames(Fault(s, k, v, ppn).areas))
  {
    hide PageFrames, Confined, Private, Agrees, Fault;
    FreshUnused(s.areas, pg, ppn);
    FaultWf(s, k, v, ppn);
    FaultLive(s, k, v, ppn, pg, pg');
    AllocConfined(t, pg, free, ot, PageFrames(s.areas), t', pg', free', ot', PageFrames(Fault(s, k, v, ppn).areas), ppn);
  }

  lemma FramesOfLive(areas: Areas, pages: Pages, k: nat)
    requires FramesLive(areas, pages) && k in areas
    ensures FramesOf(areas[k]) <= pages.Keys && FramesOf(areas[k]) <= PageFrames(areas)
  {
    forall p | p in FramesOf(areas[k]) ensures p in pages.Keys && p in PageFrames(areas) {
      var v :| v in areas[k].pages && p == areas[k].pages[v];
    }
  }

  lemma PagesApart(areas: Areas, j: nat, k: nat, v: nat, u: nat)
    requires AllOk(areas) && Disjoint(areas) && j in areas && k in areas && j != k
    requires v in areas[j].pages && u in areas[k].pages
    ensures v != u
  {
    assert AreaOk(j, areas[j]) && AreaOk(k, areas[k]);
  }

  /** The frames of the area at `k` back no page of another area. */
  lemma OtherFramesApart(areas: Areas, k: nat)
    requires AllOk(areas) && Disjoint(areas) && Private(areas) && k in areas
    ensures forall j, v | j in areas && j != k && v in areas[j].pages :: areas[j].pages[v] !in FramesOf(areas[k])
  {
    forall j, v, u | j in areas && j != k && v in areas[j].pages && u in areas[k].pages
      ensures areas[j].pages[v] != areas[k].pages[u]
    {
      PagesApart(areas, j, k, v, u);
    }
  }

  /** Without the area at `k` the other areas' frames stay live when its frames are freed. */
  lemma DropFrames(areas: Areas, k: nat, pages: Pages)
    requires FramesLive(areas, pages) && k in areas
    requires forall j, v | j in areas && j != k && v in areas[j].pages :: areas[j].pages[v] !in FramesOf(areas[k])
    ensures FramesLive(areas - {k}, pages - FramesOf(areas[k]))
    ensures PageFrames(areas - {k}) <= PageFrames(areas)
  {
    forall p | p in PageFrames(areas - {k}) ensures p in PageFrames(areas) {
      var j, v :| j in areas - {k} && v in areas[j].pages && p == areas[j].pages[v];
    }
  }

  lemma InsertEmptyFrames(areas: Areas, k: nat, a: Area, pages: Pages)
    requires FramesLive(areas, pages) && a.pages == map[]
    ensures FramesLive(areas[k := a], pages) && PageFrames(areas[k := a]) <= PageFrames(areas)
  {
    forall p | p in PageFrames(areas[k := a]) ensures p in PageFrames(areas) {
      var j, v :| j in areas[k := a] && v in areas[k := a][j].pages && p == areas[k := a][j].pages[v];
      assert j in areas && v in areas[j].pages;
    }
  }

  lemma ShrinkFrames(areas: Areas, k: nat, newEnd: nat, pages: Pages)
    requires FramesLive(areas, pages) && Private(areas) && k in areas
    requires forall j, v | j in areas && j != k && v in areas[j].pages :: areas[j].pages[v] !in FramesOf(areas[k])
    ensures var a := areas[k];
            var freed := set v | v in Above(a, newEnd) :: a.pages[v];
            var areas' := areas[k := a.(end := newEnd, pages := a.pages - Above(a, newEnd))];
            && freed <= pages.Keys && freed <= PageFrames(areas)
            && FramesLive(areas', pages - freed) && PageFrames(areas') <= PageFrames(areas)
  {
    var a := areas[k];
    var freed := set v | v in Above(a, newEnd) :: a.pages[v];
    var areas' := areas[k := a.(end := newEnd, pages := a.pages - Above(a, newEnd))];
    forall p | p in freed ensures p in pages && p in PageFrames(areas) && p in FramesOf(a) {
      var v :| v in Above(a, newEnd) && p == a.pages[v];
    }
    forall p | p in PageFrames(areas') ensures p in PageFrames(areas) {
      var j, v :| j in areas' && v in areas'[j].pages && p == areas'[j].pages[v];
      assert j in areas && v in areas[j].pages && p == areas[j].pages[v];
    }
  }

  /** Everything a shrink owes once the pages above the new end are unmapped. */
  lemma ShrinkDone(s: Space, k: nat, newEnd: nat, t: Tables, t': Tables, pages: Pages, free: set<nat>, ot: set<nat>)
    requires Wf(s) && k in s.areas && FramesLive(s.areas, pages) && TablesKept(t, t', ot)
    ensures var a := s.areas[k];
            var freed := set v | v in Above(a, newEnd) :: a.pages[v];
            && freed <= pages.Keys && FramesLive(Shrink(s, k, newEnd).areas, pages - freed)
            && Confined(t, pages, free, ot + PageFrames(s.areas), t', pages - freed, free + freed, ot + PageFrames(Shrink(s, k, newEnd).areas))
  {
    OtherFramesApart(s.areas, k);
    ShrinkFrames(s.areas, k, newEnd, pages);
  }

  lemma SameFrames(areas: Areas, areas': Areas, pages: Pages)
    requires FramesLive(areas, pages) && areas'.Keys == areas.Keys
    requires forall k | k in areas :: areas'[k].pages == areas[k].pages
    ensures FramesLive(areas', pages) && PageFrames(areas') <= PageFrames(areas)
  {
    forall p | p in PageFrames(areas') ensures p in PageFrames(areas) {
      var j, v :| j in areas' && v in areas'[j].pages && p == areas'[j].pages[v];
      assert j in areas && v in areas[j].pages && p == areas[j].pages[v];
    }
  }

  lemma SameConfined(t: Tables, pg: Pages, free: set<nat>, ot: set<nat>, areas: Areas, areas': Areas)
    requires PageFrames(areas') <= PageFrames(areas)
    ensures Confined(t, pg, free, ot + PageFrames(areas), t, pg, free, ot + PageFrames(areas'))
  {
    hide PageFrames;
  }

  lemma EmptyWf()
    ensures Wf(EmptySpace())
  {
  }

  lemma AllFramesLive(areas: Areas, pages: Pages)
    requires FramesLive(areas, pages)
    ensures PageFrames(areas) <= pages.Keys
  {
  }

  ghost predicate TablesKept(t: Tables, t': Tables, own: set<nat>) {
    forall p | p in t && p !in own :: p in t' && t'[p] == t[p]
  }

  lemma KeptTwice(t: Tables, t1: Tables, t2: Tables, own: set<nat>)
    requires TablesKept(t, t1, own) && TablesKept(t1, t2, own)
    ensures TablesKept(t, t2, own)
  {
  }

  lemma MinusNone(m: map<nat, Xlat>)
    ensures m - {} == m
  {
  }

  lemma MinusMinus(m: map<nat, Xlat>, a: set<nat>, b: set<nat>)
    ensures m - a - b == m - (a + b)
  {
  }

  ghost function Prefix(ks: seq<nat>, i: nat): set<nat>
    requires i <= |ks|
  {
    set j | 0 <= j < i :: ks[j]
  }

  lemma PrefixStep(ks: seq<nat>, i: nat)
    requires i < |ks|
    ensures Prefix(ks, i) + {ks[i]} == Prefix(ks, i + 1)
  {
  }

  lemma MappedByOne(s: Space, k: nat)
    requires k in s.areas
    ensures MappedBy(s.areas, {k}) == Mapped(s.areas[k])
    ensures Agrees(s) ==> forall v | v in Mapped(s.areas[k]) :: v in s.flat
  {
    forall v | v in Mapped(s.areas[k]) ensures v in MappedBy(s.areas, {k}) {
      assert k in s.areas && k in {k} && v in Mapped(s.areas[k]);
    }
  }

  lemma AboveMapped(s: Space, k: nat, newEnd: nat)
    requires Wf(s) && k in s.areas
    ensures forall v | v in Above(s.areas[k], newEnd) :: v in s.flat
  {
    MappedByOne(s, k);
  }

  lemma AllMapped(s: Space, k: nat)
    requires Wf(s) && k in s.areas
    ensures MappedBy(s.areas, {k}) == Mapped(s.areas[k]) && forall v | v in Mapped(s.areas[k]) :: v in s.flat
  {
    MappedByOne(s, k);
  }

  /** Everything a removal owes once the pages of the area at `k` are unmapped. */
  lemma RemoveDone(s: Space, k: nat, t: Tables, t': Tables, pages: Pages, free: set<nat>, ot: set<nat>)
    requires Wf(s) && k in s.areas && FramesLive(s.areas, pages) && TablesKept(t, t', ot)
    ensures var freed := FramesOf(s.areas[k]);
            && freed <= pages.Keys && FramesLive(s.areas - {k}, pages - freed)
            && Confined(t, pages, free, ot + PageFrames(s.areas), t', pages - freed, free + freed, ot + PageFrames(s.areas - {k}))
  {
    OtherFramesApart(s.areas, k);
    DropFrames(s.areas, k, pages);
    FramesOfLive(s.areas, pages, k);
  }

  lemma RemoveNothing(s: Space, k: nat)
    requires k !in s.areas
    ensures RemoveAreas(s, {k}) == s
  {
    assert MappedBy(s.areas, {k}) == {};
    assert s.areas - {k} == s.areas;
  }

  lemma RemoveNone(s: Space)
    ensures RemoveAreas(s, {}) == s
  {
    assert MappedBy(s.areas, {}) == {};
    assert s.areas - {} == s.areas;
  }

  lemma RemoveMore(s: Space, ks: set<nat>, k: nat)
    ensures RemoveAreas(RemoveAreas(s, ks), {k}) == RemoveAreas(s, ks + {k})
  {
    var s' := RemoveAreas(s, ks);
    assert s'.areas - {k} == s.areas - (ks + {k});
    forall v ensures v in MappedBy(s.areas, ks) + MappedBy(s'.areas, {k}) <==> v in MappedBy(s.areas, ks + {k}) {
      if v in MappedBy(s.areas, ks + {k}) {
        var j :| j in s.areas && j in ks + {k} && v in Mapped(s.areas[j]);
        assert j in ks || (j in s'.areas && j in {k});
      }
    }
    assert MappedBy(s.areas, ks) + MappedBy(s'.areas, {k}) == MappedBy(s.areas, ks + {k});
    MinusMinus(s.flat, MappedBy(s.areas, ks), MappedBy(s'.areas, {k}));
  }

  lemma PlacedFree(areas: Areas, hint: nat, len: nat, r: Placement)
    requires r.Placed? && FirstFit(areas, hint, len, r) && 0 < len
    ensures r.start < r.end <= LOW_VPN && FreeRange(areas, r.start, r.end)
  {
  }

  datatype FaultResult = Handled | BadAddress | Todo

  /** What a fault on page `v` does, by the area the page lies in. */
  ghost function Outcome(areas: Areas, v: nat, maybeCow: bool): FaultResult {
    if maybeCow then FaultResult.Todo
    else if exists k :: k in areas && areas[k].start <= v < areas[k].end && areas[k].kind == Lazy then Handled
    else if exists k :: k in areas && areas[k].start <= v < areas[k].end then FaultResult.Todo
    else BadAddress
  }

  lemma OwnerDecides(areas: Areas, v: nat, k: nat)
    requires AllOk(areas) && Disjoint(areas) && k in areas && areas[k].start <= v < areas[k].end
    ensures Outcome(areas, v, false) == if areas[k].kind == Lazy then Handled else FaultResult.Todo
  {
    forall j | j in areas && areas[j].start <= v < areas[j].end ensures j == k { OwnerUnique(areas, j, k, v); }
  }

  /** `s'` is `s`, or `s` after giving page `v` a fresh frame. */
  ghost predicate FaultedTo(s: Space, s': Space, v: nat) {
    s' == s || exists k, ppn :: Enabled(s, FaultOp(k, v, ppn)) && s' == Fault(s, k, v, ppn)
  }

  class MemorySpace {
    const mem: FrameMemory
    const pt: PageTable
    /** Areas by first page; the map owns its areas, so they are values here. */
    var areas: Areas

    ghost predicate Consistent()
      reads this, mem, pt, pt.mem
    {
      && pt.mem == mem && pt.ownLines == USER_LINES && pt.Valid()
      && FramesLive(areas, mem.pages)
    }

    ghost function View(): Space
      reads this, pt, pt.mem
    {
      Space(areas, pt.FlatMap())
    }

    ghost predicate Valid()
      reads this, mem, pt, pt.mem
    {
      Consistent() && Wf(View())
    }

    /** Every frame this address space owns. */
    ghost function Own(): set<nat>
      reads this, pt
    {
      OwnTables(pt.root, pt.slot) + PageFrames(areas)
    }

    /** The kernel's tables its page table leads to. */
    ghost function Shared(): set<nat>
      reads pt
    {
      KernelTables(pt.slot)
    }

    ghost predicate ConfinedSince(t: Tables, pg: Pages, free: set<nat>, own: set<nat>)
      reads this, mem, pt
    {
      Confined(t, pg, free, own, mem.tables, mem.pages, mem.free, Own())
    }

    constructor NewBare(mem: FrameMemory)
      requires mem.Valid() && mem.free != {}
      modifies mem
      ensures Valid() && this.mem == mem && fresh(pt)
      ensures View() == EmptySpace() && pt.slot == map[]
      ensures mem.pages == old(mem.pages)
      ensures ConfinedSince(old(mem.tables), old(mem.pages), old(mem.free), {})
      ensures |mem.free| >= |old(mem.free)| - 1
    {
      this.mem := mem;
      pt := new PageTable(mem, USER_LINES);
      areas := map[];
    }

    /** Allocate a zeroed frame and map it at an untranslated page. */
    method MapFresh(vpn: nat, perm: Perm) returns (ppn: nat)
      requires pt.mem == mem && pt.ownLines == USER_LINES && pt.Valid()
      requires vpn < LOW_VPN && vpn !in pt.FlatMap() && |mem.free| >= 3
      modifies mem, pt
      ensures pt.Valid() && ppn in old(mem.free) && ppn < PPN_LIMIT && old(mem.free) !! old(mem.pages).Keys
      ensures pt.FlatMap() == old(pt.FlatMap())[vpn := Xlat(ppn, LeafFlags(perm))]
      ensures mem.pages == old(mem.pages)[ppn := ZeroPage()]
      ensures mem.free <= old(mem.free) && |mem.free| >= |old(mem.free)| - 3
      ensures TablesKept(old(mem.tables), mem.tables, OwnTables(pt.root, old(pt.slot)))
      ensures OwnTables(pt.root, pt.slot) <= OwnTables(pt.root, old(pt.slot)) + old(mem.free)
      ensures Shared() == old(Shared())
    {
      ppn := mem.AllocPage();
      FlatAbsent(vpn);
      pt.Map(vpn, ppn, perm);
      GrownOwn(old(mem.tables), old(pt.slot), old(mem.free), mem.tables, pt.slot, mem.free, pt.root, I0(vpn));
    }

    /** The frame of page `vpn` of the lazy area at `k`, allocated and mapped if it was not. */
    method EnsureAllocated(k: nat, vpn: nat) returns (ppn: nat)
      requires Valid() && k in areas && areas[k].kind == Lazy && areas[k].start <= vpn < areas[k].end
      requires |mem.free| >= 3
      modifies this, mem, pt
      ensures Valid() && k in areas && vpn in areas[k].pages && ppn == areas[k].pages[vpn]
      ensures vpn in View().flat && View().flat[vpn] == Xlat(ppn, LeafFlags(areas[k].perm))
      ensures vpn in old(areas[k].pages) ==> View() == old(View()) && mem.pages == old(mem.pages)
      ensures vpn !in old(areas[k].pages) ==>
                && ppn !in old(mem.pages) && Enabled(old(View()), FaultOp(k, vpn, ppn))
                && View() == Fault(old(View()), k, vpn, ppn) && mem.pages == old(mem.pages)[ppn := ZeroPage()]
      ensures ConfinedSince(old(mem.tables), old(mem.pages), old(mem.free), old(Own()))
      ensures |mem.free| >= |old(mem.free)| - 3
      ensures Shared() == old(Shared())
    {
      var a := areas[k];
      if vpn in a.pages {
        PageTranslated(View(), k, vpn);
        return a.pages[vpn];
      }
      ppn := AllocateAt(k, vpn);
      PageTranslated(View(), k, vpn);
    }

    /** Give an unallocated page of a lazy area a zeroed frame. */
    method AllocateAt(k: nat, vpn: nat) returns (ppn: nat)
      requires Valid() && k in areas && areas[k].kind == Lazy && areas[k].start <= vpn < areas[k].end
      requires vpn !in areas[k].pages && |mem.free| >= 3
      modifies this, mem, pt
      ensures Valid() && ppn in old(mem.free) && Enabled(old(View()), FaultOp(k, vpn, ppn))
      ensures View() == Fault(old(View()), k, vpn, ppn) && mem.pages == old(mem.pages)[ppn := ZeroPage()]
      ensures ConfinedSince(old(mem.tables), old(mem.pages), old(mem.free), old(Own()))
      ensures |mem.free| >= |old(mem.free)| - 3
      ensures Shared() == old(Shared())
    {
      hide Wf, Confined, FramesLive, OwnTables, KernelTables, PageFrames, Fault, Enabled, TablesKept, PageTable.Valid, PageTable.FlatMap;
      ghost var s, t, pg, free, own := View(), mem.tables, mem.pages, mem.free, OwnTables(pt.root, pt.slot);
      NotYetAllocated(s, k, vpn);
      ppn := MapFresh(vpn, areas[k].perm);
      FaultDone(s, k, vpn, ppn, t, pg, free, own, mem.tables, mem.pages, mem.free, OwnTables(pt.root, pt.slot));
      SetPage(k, vpn, ppn, s);
    }

    /** Enter a mapped page into the area map. */
    method SetPage(k: nat, vpn: nat, ppn: nat, ghost s: Space)
      requires areas == s.areas && pt.mem == mem && pt.ownLines == USER_LINES && pt.Valid()
      requires k in areas && pt.FlatMap() == s.flat[vpn := Xlat(ppn, LeafFlags(areas[k].perm))]
      requires FramesLive(Fault(s, k, vpn, ppn).areas, mem.pages) && Wf(Fault(s, k, vpn, ppn))
      modifies this
      ensures Valid() && View() == Fault(s, k, vpn, ppn)
    {
      hide Wf, FramesLive, PageTable.Valid, PageTable.FlatMap;
      var a := areas[k];
      areas := areas[k := a.(pages := a.pages[vpn := ppn])];
    }

    /** A page fault at `addr`. A page inside a lazy area becomes translated, a page outside every area is
        refused without a change, and the two cases the kernel leaves open change nothing. */
    method HandleMemoryException(addr: nat, maybeCow: bool) returns (r: FaultResult)
      requires Valid() && |mem.free| >= 3
      modifies this, mem, pt
      ensures Valid() && ConfinedSince(old(mem.tables), old(mem.pages), old(mem.free), old(Own()))
      ensures r == Outcome(old(areas), VpnFloor(addr), maybeCow)
      ensures r == Handled ==> VpnFloor(addr) in View().flat && FaultedTo(old(View()), View(), VpnFloor(addr))
      ensures r != Handled ==> View() == old(View()) && mem.pages == old(mem.pages)
      ensures Shared() == old(Shared())
    {
      if maybeCow {
        return FaultResult.Todo;
      }
      var vpn := VpnFloor(addr);
      var owner := FindArea(areas, vpn);
      match owner
      case Nowhere =>
        r := BadAddress;
      case At(k) =>
        OwnerDecides(areas, vpn, k);
        if areas[k].kind == Mmap {
          return FaultResult.Todo;
        }
        var ppn := EnsureAllocated(k, vpn);
        r := Handled;
    }

    /** Insert an area for `lo..hi`, allocating nothing. An area already keyed at `lo` is replaced and its frames freed. */
    method UserMap(lo: nat, hi: nat, perm: Perm)
      requires Valid()
      modifies this, mem
      ensures Consistent() && View() == MapArea(old(View()), lo, hi, perm)
      ensures ConfinedSince(old(mem.tables), old(mem.pages), old(mem.free), old(Own()))
      ensures lo !in old(areas) ==> mem.pages == old(mem.pages) && mem.free == old(mem.free)
      ensures mem.free >= old(mem.free) && mem.tables == old(mem.tables)
    {
      var a := Area(lo, hi, perm, Lazy, map[], {});
      if lo in areas {
        FramesOfLive(areas, mem.pages, lo);
        OtherFramesApart(areas, lo);
        DropFrames(areas, lo, mem.pages);
        mem.FreePages(FramesOf(areas[lo]));
      }
      InsertEmptyFrames(areas - {lo}, lo, a, mem.pages);
      assert (areas - {lo})[lo := a] == areas[lo := a];
      areas := areas[lo := a];
    }

    /** Map `len` bytes where the search places them. With a sane length the placement is first fit, a placed
        mapping becomes a new empty area, and in every other case nothing changes. */
    method TryMap(addr: nat, len: nat, perm: Perm, fixed: bool) returns (r: Placement)
      requires Valid() && addr < WORD && 0 < len < WORD
      modifies this, mem
      ensures Consistent()
      ensures fixed ==> r == (if addr % PAGE_SIZE != 0 then Einval else Unsupported)
      ensures !fixed ==> (FirstFit(old(areas), HintPage(addr), len, r) <==> SaneLength(old(areas), HintPage(addr), len))
      ensures View() == if r.Placed? then MapArea(old(View()), r.start, r.end, perm) else old(View())
      ensures !fixed && SaneLength(old(areas), HintPage(addr), len) ==> Valid() && mem.pages == old(mem.pages)
      ensures ConfinedSince(old(mem.tables), old(mem.pages), old(mem.free), old(Own()))
    {
      r := TryFindMmapArea(areas, addr, len, fixed);
      if r.Placed? {
        if SaneLength(areas, HintPage(addr), len) {
          PlacedFree(areas, HintPage(addr), len, r);
          MapAreaWf(View(), r.start, r.end, perm);
        }
        UserMap(r.start, r.end, perm);
      }
    }

    /** Unmap the given translated pages one by one. */
    method UnmapPages(vpns: set<nat>)
      requires pt.mem == mem && pt.ownLines == USER_LINES && pt.Valid()
      requires forall v | v in vpns :: v in pt.FlatMap()
      modifies mem, pt
      ensures pt.Valid() && pt.FlatMap() == old(pt.FlatMap()) - vpns
      ensures mem.pages == old(mem.pages) && mem.free == old(mem.free) && pt.slot == old(pt.slot)
      ensures TablesKept(old(mem.tables), mem.tables, OwnTables(pt.root, pt.slot))
    {
      MinusNone(pt.FlatMap());
      UnmapEach(vpns, pt.FlatMap(), mem.pages, mem.free, pt.slot, mem.tables);
    }

    /** The pages in `done` are unmapped, and nothing else has changed. */
    ghost predicate Unmapping(flat: map<nat, Xlat>, pages: Pages, free: set<nat>, slot: Slots, t: Tables, done: set<nat>)
      reads this, mem, pt, pt.mem
    {
      && pt.mem == mem && pt.ownLines == USER_LINES && pt.Valid() && pt.FlatMap() == flat - done
      && mem.pages == pages && mem.free == free && pt.slot == slot && TablesKept(t, mem.tables, OwnTables(pt.root, slot))
    }

    method UnmapEach(vpns: set<nat>, ghost flat: map<nat, Xlat>, ghost pages: Pages, ghost free: set<nat>, ghost slot: Slots, ghost t: Tables)
      requires Unmapping(flat, pages, free, slot, t, {}) && forall v | v in vpns :: v in flat
      modifies mem, pt
      ensures Unmapping(flat, pages, free, slot, t, vpns)
    {
      hide MemorySpace.Unmapping;
      var todo := vpns;
      ghost var done := {};
      while todo != {}
        invariant done + todo == vpns && done !! todo && Unmapping(flat, pages, free, slot, t, done)
        decreases todo
      {
        var v :| v in todo;
        UnmapOne(v, flat, pages, free, slot, t, done);
        todo := todo - {v};
        done := done + {v};
      }
      assert done == vpns;
    }

    method UnmapOne(v: nat, ghost flat: map<nat, Xlat>, ghost pages: Pages, ghost free: set<nat>, ghost slot: Slots, ghost t: Tables,
                    ghost done: set<nat>)
      requires Unmapping(flat, pages, free, slot, t, done) && v in flat && v !in done
      modifies mem, pt
      ensures Unmapping(flat, pages, free, slot, t, done + {v})
    {
      FlatPresent(v);
      ghost var t0 := mem.tables;
      pt.Unmap(v);
      GrownOwn(t0, slot, free, mem.tables, slot, free, pt.root, I0(v));
      KeptTwice(t, t0, mem.tables, OwnTables(pt.root, slot));
      MinusMinus(flat, done, {v});
    }

    /** Remove the area that starts at `k`, if there is one: unmap its pages, then free its frames. */
    method RemoveAreaWithStartVpn(k: nat)
      requires Valid()
      modifies this, mem, pt
      ensures Valid() && View() == RemoveAreas(old(View()), {k})
      ensures ConfinedSince(old(mem.tables), old(mem.pages), old(mem.free), old(Own()))
      ensures mem.pages == old(mem.pages) - (if k in old(areas) then FramesOf(old(areas)[k]) else {})
      ensures Shared() == old(Shared())
    {
      hide Confined, PageFrames, OwnTables, Wf, TablesKept, TreeOk, FramesOk, Flat, FramesLive, FramesOf, MappedBy;
      ghost var s := View();
      RemoveAreasWf(s, {k});
      if k in areas {
        var a := areas[k];
        areas := areas - {k};
        AllMapped(s, k);
        UnmapPages(Mapped(a));
        RemoveDone(s, k, old(mem.tables), mem.tables, mem.pages, mem.free, OwnTables(pt.root, pt.slot));
        mem.FreePages(FramesOf(a));
      } else {
        RemoveNothing(s, k);
        SameConfined(mem.tables, mem.pages, mem.free, OwnTables(pt.root, pt.slot), areas, areas);
      }
    }

    /** Unmap every page of `addrLo..addrHi`. The areas inside the page range go; if an area straddles the
        range the kernel stops and nothing has changed. */
    method Unmap(addrLo: nat, addrHi: nat) returns (todo: bool)
      requires Valid() && addrLo <= addrHi
      modifies this, mem, pt
      ensures Valid() && ConfinedSince(old(mem.tables), old(mem.pages), old(mem.free), old(Own()))
      ensures todo <==> exists k :: k in old(areas) && Straddles(old(areas)[k], VpnFloor(addrLo), VpnCeil(addrHi))
      ensures View() == if todo then old(View()) else Unmapped(old(View()), VpnFloor(addrLo), VpnCeil(addrHi))
      ensures Shared() == old(Shared())
    {
      var lo, hi := VpnFloor(addrLo), VpnCeil(addrHi);
      var plan := PlanUnmap(areas, lo, hi);
      if plan.Todo? { return true; }
      assert Prefix(plan.keys, |plan.keys|) == Inside(areas, lo, hi);
      RemoveKeys(plan.keys);
      todo := false;
    }

    method RemoveKeys(keys: seq<nat>)
      requires Valid()
      modifies this, mem, pt
      ensures Valid() && ConfinedSince(old(mem.tables), old(mem.pages), old(mem.free), old(Own()))
      ensures View() == RemoveAreas(old(View()), Prefix(keys, |keys|))
      ensures Shared() == old(Shared())
    {
      ghost var s := View();
      RemoveNone(s);
      assert Prefix(keys, 0) == {};
      var i := 0;
      while i < |keys|
        invariant i <= |keys|
        invariant Valid() && View() == RemoveAreas(s, Prefix(keys, i)) && Shared() == old(Shared())
        invariant ConfinedSince(old(mem.tables), old(mem.pages), old(mem.free), old(Own()))
      {
        RemoveNext(keys[i], s, Prefix(keys, i), old(mem.tables), old(mem.pages), old(mem.free), old(Own()));
        PrefixStep(keys, i);
        i := i + 1;
      }
    }

    method RemoveNext(k: nat, ghost s: Space, ghost done: set<nat>, ghost t: Tables, ghost pg: Pages, ghost f: set<nat>, ghost o: set<nat>)
      requires Valid() && View() == RemoveAreas(s, done) && ConfinedSince(t, pg, f, o)
      requires f !! t.Keys && f !! pg.Keys
      modifies this, mem, pt
      ensures Valid() && View() == RemoveAreas(s, done + {k}) && ConfinedSince(t, pg, f, o)
      ensures Shared() == old(Shared())
    {
      RemoveAreaWithStartVpn(k);
      ConfinedTransitive(t, pg, f, o, old(mem.tables), old(mem.pages), old(mem.free), old(Own()), mem.tables, mem.pages, mem.free, Own());
      RemoveMore(s, done, k);
    }

    /** Move the end of the lazy area at `k` down: unmap the pages above, then free their frames. */
    method ShrinkArea(k: nat, newEnd: nat)
      requires Valid() && k in areas && areas[k].kind == Lazy && k < newEnd <= areas[k].end
      modifies this, mem, pt
      ensures Valid() && View() == Shrink(old(View()), k, newEnd)
      ensures Shared() == old(Shared())
      ensures ConfinedSince(old(mem.tables), old(mem.pages), old(mem.free), old(Own()))
    {
      hide Wf, Confined, FramesLive, OwnTables, KernelTables, PageFrames, TablesKept, Shrink, Above, PageTable.Valid, PageTable.FlatMap;
      ghost var s := View();
      ShrinkWf(s, k, newEnd);
      AboveMapped(s, k, newEnd);
      UnmapPages(Above(areas[k], newEnd));
      DropAbove(k, newEnd, s, old(mem.tables));
    }

    /** Free the frames above the new end, once their pages are unmapped. */
    method DropAbove(k: nat, newEnd: nat, ghost s: Space, ghost t: Tables)
      requires Consistent() && areas == s.areas && k in areas && Wf(s) && Wf(Shrink(s, k, newEnd))
      requires pt.FlatMap() == s.flat - Above(areas[k], newEnd) && TablesKept(t, mem.tables, OwnTables(pt.root, pt.slot))
      modifies this, mem
      ensures Valid() && View() == Shrink(s, k, newEnd)
      ensures ConfinedSince(t, old(mem.pages), old(mem.free), old(Own()))
    {
      hide Confined, PageFrames, OwnTables, Wf, TablesKept, TreeOk, FramesOk, Flat, FramesLive;
      var a := areas[k];
      var gone := Above(a, newEnd);
      ShrinkDone(s, k, newEnd, t, mem.tables, mem.pages, mem.free, OwnTables(pt.root, pt.slot));
      areas := areas[k := a.(end := newEnd, pages := a.pages - gone)];
      mem.FreePages(set v | v in gone :: a.pages[v]);
    }

    method ExpandArea(k: nat, newEnd: nat)
      requires Valid() && k in areas
      modifies this
      ensures Consistent() && View() == Expand(old(View()), k, newEnd)
      ensures ConfinedSince(mem.tables, mem.pages, mem.free, old(Own()))
    {
      hide Confined, PageFrames, OwnTables, FramesLive, Wf, PageTable.Valid, PageTable.FlatMap;
      SameFrames(areas, areas[k := areas[k].(end := newEnd)], mem.pages);
      SameConfined(mem.tables, mem.pages, mem.free, OwnTables(pt.root, pt.slot), areas, areas[k := areas[k].(end := newEnd)]);
      areas := areas[k := areas[k].(end := newEnd)];
    }

    /** Shrink, grow or create the heap area. Whether the invariant survives depends only on the room above. */
    method SetUserBrk(heapStart: nat, newEnd: nat)
      requires Valid() && heapStart < newEnd <= LOW_VPN
      requires heapStart in areas ==> areas[heapStart].kind == Lazy
      modifies this, mem, pt
      ensures Consistent() && View() == Brk(old(View()), heapStart, newEnd)
      ensures Valid() <==> (heapStart in old(areas) && newEnd <= old(areas)[heapStart].end) ||
                           BrkRangeFree(old(areas), heapStart, newEnd)
      ensures Shared() == old(Shared())
      ensures ConfinedSince(old(mem.tables), old(mem.pages), old(mem.free), old(Own()))
    {
      hide Wf, Confined, FramesLive, OwnTables, KernelTables, PageFrames, PageTable.Valid, PageTable.FlatMap,
           Shrink, Expand, MapArea, BrkRangeFree;
      BrkWfIff(View(), heapStart, newEnd);
      if heapStart in areas {
        if newEnd <= areas[heapStart].end {
          ShrinkArea(heapStart, newEnd);
        } else {
          ExpandArea(heapStart, newEnd);
        }
      } else {
        UserMap(heapStart, newEnd, HEAP_PERM);
      }
    }

    /** Drop every area and the tables of the user half. */
    method RecycleUserPages()
      requires Valid()
      modifies this, mem, pt
      ensures Valid() && View() == EmptySpace()
      ensures mem.pages == old(mem.pages) - PageFrames(old(areas))
      ensures Shared() == old(Shared())
      ensures ConfinedSince(old(mem.tables), old(mem.pages), old(mem.free), old(Own()))
      ensures forall v: nat | I0(v) >= USER_LINES :: pt.Translate(v) == old(pt.Translate(v))
    {
      AllFramesLive(areas, mem.pages);
      mem.FreePages(PageFrames(areas));
      areas := map[];
      assert PageFrames(areas) == {};
      pt.Clear();
      EmptyWf();
      assert View() == EmptySpace();
    }

    lemma FlatPresent(vpn: nat)
      requires vpn in pt.FlatMap()
      ensures vpn < LOW_VPN && PteValid(pt.Translate(vpn)) && I0(vpn) < USER_LINES
    {
      IndexesCompose(vpn);
    }

    lemma FlatAbsent(vpn: nat)
      requires vpn < LOW_VPN && vpn !in pt.FlatMap()
      ensures !PteValid(pt.Translate(vpn)) && I0(vpn) < USER_LINES
    {
      IndexesCompose(vpn);
    }
  }
}
