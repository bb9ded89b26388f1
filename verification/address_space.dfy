/** A user address space as a value: its areas and the flat translation of the user half.
    What every operation of the kernel's `MemorySpace` must keep, and what each does. */
module AddressSpace {
  import opened Sv39

  datatype Kind = Lazy | Mmap

  /** `FramedVmArea`: pages `start..end`, the frames of the pages allocated so far, and for a
      file mapping the pages that were mapped from the page cache. */
  datatype Area = Area(start: nat, end: nat, perm: Perm, kind: Kind, pages: map<nat, nat>, backed: set<nat>)

  /** `areas` is keyed by the first page of each area; `flat` holds the valid leaf entries of the user half. */
  datatype Space = Space(areas: map<nat, Area>, flat: map<nat, Xlat>)

  type Areas = map<nat, Area>

  function Mapped(a: Area): set<nat> {
    a.pages.Keys + a.backed
  }

  ghost predicate AreaOk(k: nat, a: Area) {
    && a.start == k < a.end <= LOW_VPN
    && (forall v | v in a.pages :: a.start <= v < a.end && a.pages[v] < PPN_LIMIT && a.kind == Lazy)
    && (forall v | v in a.backed :: a.start <= v < a.end && a.kind == Mmap)
  }

  ghost predicate Disjoint(areas: Areas) {
    forall j, k | j in areas && k in areas && j < k :: areas[j].end <= k
  }

  /** No frame backs two pages. */
  ghost predicate Private(areas: Areas) {
    forall j, k, u, v | j in areas && k in areas && u in areas[j].pages && v in areas[k].pages ::
      areas[j].pages[u] == areas[k].pages[v] ==> u == v
  }

  /** The leaf entry of an allocated page. */
  function PageEntry(a: Area, v: nat): Xlat
    requires v in a.pages
  {
    Xlat(a.pages[v], LeafFlags(a.perm))
  }

  /** The leaf entries of pages mapped with one permission. */
  function Entries(pages: map<nat, nat>, perm: Perm): map<nat, Xlat> {
    map v | v in pages :: Xlat(pages[v], LeafFlags(perm))
  }

  ghost predicate Covered(areas: Areas, v: nat) {
    exists k :: k in areas && v in Mapped(areas[k])
  }

  ghost predicate PagesAgree(s: Space) {
    forall k, v | k in s.areas && v in s.areas[k].pages :: v in s.flat && s.flat[v] == PageEntry(s.areas[k], v)
  }

  ghost predicate BackedAgree(s: Space) {
    forall k, v | k in s.areas && v in s.areas[k].backed ::
      v in s.flat && s.flat[v].flags == LeafFlags(s.areas[k].perm)
  }

  ghost predicate FlatCovered(s: Space) {
    forall v | v in s.flat :: Covered(s.areas, v)
  }

  /** The translation is exactly the union of the areas' pages, with the right frame and permission. */
  ghost predicate Agrees(s: Space) {
    PagesAgree(s) && BackedAgree(s) && FlatCovered(s)
  }

  ghost predicate AllOk(areas: Areas) {
    forall k | k in areas :: AreaOk(k, areas[k])
  }

  /** The invariant of an address space. */
  ghost predicate Wf(s: Space) {
    AllOk(s.areas) && Disjoint(s.areas) && Private(s.areas) && Agrees(s)
  }

  ghost predicate FreeRange(areas: Areas, lo: nat, hi: nat) {
    forall k | k in areas :: areas[k].end <= lo || hi <= areas[k].start
  }

  lemma OwnerUnique(areas: Areas, j: nat, k: nat, v: nat)
    requires AllOk(areas) && Disjoint(areas)
    requires j in areas && k in areas && areas[j].start <= v < areas[j].end && areas[k].start <= v < areas[k].end
    ensures j == k
  {
  }

  lemma FreeKey(areas: Areas, lo: nat, hi: nat)
    requires AllOk(areas) && FreeRange(areas, lo, hi) && lo < hi
    ensures lo !in areas
  {
    assert lo in areas ==> AreaOk(lo, areas[lo]);
  }

  // -------------------------------------------------------------- operations

  function EmptySpace(): Space { Space(map[], map[]) }

  /** Insert an area with nothing allocated yet. */
  function MapArea(s: Space, lo: nat, hi: nat, perm: Perm): Space {
    s.(areas := s.areas[lo := Area(lo, hi, perm, Lazy, map[], {})])
  }

  /** Give page `v` of the area at `k` the frame `ppn`. */
  function Fault(s: Space, k: nat, v: nat, ppn: nat): Space
    requires k in s.areas
  {
    var a := s.areas[k];
    var a' := a.(pages := a.pages[v := ppn]);
    Space(s.areas[k := a'], s.flat[v := PageEntry(a', v)])
  }

  /** Insert a file mapping whose cached pages are `backed`, with their entries. */
  function MapFile(s: Space, lo: nat, hi: nat, perm: Perm, backed: map<nat, nat>): Space {
    Space(s.areas[lo := Area(lo, hi, perm, Mmap, map[], backed.Keys)],
          s.flat + Entries(backed, perm))
  }

  /** Insert an area whose pages are already allocated. */
  function Loaded(s: Space, a: Area): Space {
    Space(s.areas[a.start := a], s.flat + Entries(a.pages, a.perm))
  }

  function MappedBy(areas: Areas, ks: set<nat>): set<nat> {
    set k, v | k in areas && k in ks && v in Mapped(areas[k]) :: v
  }

  /** Remove the areas with keys in `ks`, and their translations. */
  function RemoveAreas(s: Space, ks: set<nat>): Space {
    Space(s.areas - ks, s.flat - MappedBy(s.areas, ks))
  }

  function Above(a: Area, newEnd: nat): set<nat> {
    set v | v in a.pages && v >= newEnd
  }

  /** Move the end of the area at `k` down to `newEnd`, dropping the pages above. */
  function Shrink(s: Space, k: nat, newEnd: nat): Space
    requires k in s.areas
  {
    var a := s.areas[k];
    Space(s.areas[k := a.(end := newEnd, pages := a.pages - Above(a, newEnd))], s.flat - Above(a, newEnd))
  }

  /** Move the end of the area at `k` up to `newEnd`. */
  function Expand(s: Space, k: nat, newEnd: nat): Space
    requires k in s.areas
  {
    s.(areas := s.areas[k := s.areas[k].(end := newEnd)])
  }

  const HEAP_PERM: Perm := 22

  /** `set_user_brk`: shrink, expand or insert the heap area. */
  function Brk(s: Space, heapStart: nat, newEnd: nat): Space {
    if heapStart in s.areas then
      if newEnd <= s.areas[heapStart].end then Shrink(s, heapStart, newEnd) else Expand(s, heapStart, newEnd)
    else MapArea(s, heapStart, newEnd, HEAP_PERM)
  }

  // -------------------------------------------------------------- invariant

  lemma InsertDisjoint(areas: Areas, a: Area)
    requires AllOk(areas) && Disjoint(areas) && AreaOk(a.start, a) && FreeRange(areas, a.start, a.end)
    ensures a.start !in areas
    ensures AllOk(areas[a.start := a]) && Disjoint(areas[a.start := a])
  {
  }

  lemma InsertCovered(s: Space, a: Area, flat: map<nat, Xlat>)
    requires FlatCovered(s) && a.start !in s.areas
    requires forall v | v in flat :: v in s.flat || v in Mapped(a)
    ensures FlatCovered(Space(s.areas[a.start := a], flat))
  {
    var areas := s.areas[a.start := a];
    forall v | v in flat ensures Covered(areas, v) {
      if v in Mapped(a) {
        assert a.start in areas && v in Mapped(areas[a.start]);
      } else {
        var k :| k in s.areas && v in Mapped(s.areas[k]);
        assert k in areas && v in Mapped(areas[k]);
      }
    }
  }

  lemma InsertPrivate(areas: Areas, a: Area)
    requires Private(areas) && a.pages == map[]
    ensures Private(areas[a.start := a])
  {
  }

  lemma InsertEmptyAgrees(s: Space, a: Area)
    requires PagesAgree(s) && BackedAgree(s) && Mapped(a) == {} && a.start !in s.areas
    ensures PagesAgree(s.(areas := s.areas[a.start := a])) && BackedAgree(s.(areas := s.areas[a.start := a]))
  {
  }

  lemma MapAreaWf(s: Space, lo: nat, hi: nat, perm: Perm)
    requires Wf(s) && lo < hi <= LOW_VPN && FreeRange(s.areas, lo, hi)
    ensures Wf(MapArea(s, lo, hi, perm))
  {
    var a := Area(lo, hi, perm, Lazy, map[], {});
    InsertDisjoint(s.areas, a);
    InsertCovered(s, a, s.flat);
    InsertPrivate(s.areas, a);
    InsertEmptyAgrees(s, a);
  }

  lemma DisjointNewIsFree(areas: Areas, a: Area)
    requires AllOk(areas) && a.start !in areas && Disjoint(areas[a.start := a])
    ensures FreeRange(areas, a.start, a.end)
  {
    var areas' := areas[a.start := a];
    forall k | k in areas ensures areas[k].end <= a.start || a.end <= areas[k].start {
      assert k in areas' && areas'[k] == areas[k] && a.start in areas' && areas'[a.start] == a;
    }
  }

  /** An area that replaces one with pages leaves their translations behind. */
  lemma ReplacedStillMapped(s: Space, lo: nat, hi: nat, perm: Perm)
    requires Wf(s) && lo in s.areas && Wf(MapArea(s, lo, hi, perm))
    ensures Mapped(s.areas[lo]) == {}
  {
    var a := Area(lo, hi, perm, Lazy, map[], {});
    forall v | v in Mapped(s.areas[lo]) ensures v in s.flat && !Covered(s.areas[lo := a], v) {
      ReplacedPage(s.areas, lo, a, v);
    }
    assert FlatCovered(MapArea(s, lo, hi, perm));
    assert forall v | v in Mapped(s.areas[lo]) :: Covered(s.areas[lo := a], v);
  }

  lemma ReplacedPage(areas: Areas, lo: nat, a: Area, v: nat)
    requires AllOk(areas) && Disjoint(areas) && lo in areas && v in Mapped(areas[lo]) && Mapped(a) == {}
    ensures !Covered(areas[lo := a], v)
  {
    assert AreaOk(lo, areas[lo]);
    forall k | k in areas && k != lo ensures v !in Mapped(areas[k]) {
      assert AreaOk(k, areas[k]);
      if v in Mapped(areas[k]) { OwnerUnique(areas, k, lo, v); }
    }
  }

  /** Without an area that has no pages, the space is as good as before. */
  lemma DropEmpty(s: Space, lo: nat)
    requires Wf(s) && (lo in s.areas ==> Mapped(s.areas[lo]) == {})
    ensures Wf(Space(s.areas - {lo}, s.flat))
  {
    RemoveAreasWf(s, {lo});
    NothingMapped(s, lo);
  }

  lemma NothingMapped(s: Space, lo: nat)
    requires lo in s.areas ==> Mapped(s.areas[lo]) == {}
    ensures RemoveAreas(s, {lo}) == Space(s.areas - {lo}, s.flat)
  {
    assert MappedBy(s.areas, {lo}) == {};
  }

  /** Inserting an area keeps the invariant exactly when its range is non-empty, in the user half and free of other
      areas, and an area that was keyed there has no page left. */
  lemma MapAreaWfIff(s: Space, lo: nat, hi: nat, perm: Perm)
    requires Wf(s)
    ensures Wf(MapArea(s, lo, hi, perm)) <==>
              lo < hi <= LOW_VPN && FreeRange(s.areas - {lo}, lo, hi) && (lo in s.areas ==> Mapped(s.areas[lo]) == {})
  {
    var a := Area(lo, hi, perm, Lazy, map[], {});
    assert s.areas[lo := a] == (s.areas - {lo})[lo := a];
    if Wf(MapArea(s, lo, hi, perm)) {
      assert AreaOk(lo, MapArea(s, lo, hi, perm).areas[lo]);
      DisjointNewIsFree(s.areas - {lo}, a);
      if lo in s.areas { ReplacedStillMapped(s, lo, hi, perm); }
    } else if lo < hi <= LOW_VPN && FreeRange(s.areas - {lo}, lo, hi) && (lo in s.areas ==> Mapped(s.areas[lo]) == {}) {
      DropEmpty(s, lo);
      MapAreaWf(Space(s.areas - {lo}, s.flat), lo, hi, perm);
    }
  }

  /** A page inside an area translates exactly when it is one of that area's mapped pages. */
  lemma TranslatedByOwner(s: Space, k: nat, v: nat)
    requires AllOk(s.areas) && Disjoint(s.areas) && Agrees(s)
    requires k in s.areas && s.areas[k].start <= v < s.areas[k].end
    ensures v in s.flat <==> v in Mapped(s.areas[k])
  {
    if v in s.flat {
      var j :| j in s.areas && v in Mapped(s.areas[j]);
      OwnerUnique(s.areas, j, k, v);
    }
  }

  lemma FaultDisjoint(areas: Areas, k: nat, v: nat, ppn: nat)
    requires AllOk(areas) && Disjoint(areas) && k in areas && areas[k].kind == Lazy
    requires areas[k].start <= v < areas[k].end && ppn < PPN_LIMIT
    ensures var areas' := areas[k := areas[k].(pages := areas[k].pages[v := ppn])]; AllOk(areas') && Disjoint(areas')
  {
    assert AreaOk(k, areas[k].(pages := areas[k].pages[v := ppn]));
  }

  lemma FaultCovered(s: Space, k: nat, v: nat, ppn: nat)
    requires FlatCovered(s) && k in s.areas
    ensures FlatCovered(Fault(s, k, v, ppn))
  {
    var s' := Fault(s, k, v, ppn);
    forall u | u in s'.flat ensures Covered(s'.areas, u) {
      if u == v {
        assert k in s'.areas && v in Mapped(s'.areas[k]);
      } else {
        var j :| j in s.areas && u in Mapped(s.areas[j]);
        assert j in s'.areas && u in Mapped(s'.areas[j]);
      }
    }
  }

  lemma FaultAgrees(s: Space, k: nat, v: nat, ppn: nat)
    requires Agrees(s) && k in s.areas && v !in s.flat
    ensures Agrees(Fault(s, k, v, ppn))
  {
    FaultCovered(s, k, v, ppn);
  }

  ghost predicate FrameUnused(areas: Areas, ppn: nat) {
    forall j, u | j in areas && u in areas[j].pages :: areas[j].pages[u] != ppn
  }

  lemma FaultPrivate(areas: Areas, k: nat, v: nat, ppn: nat)
    requires Private(areas) && k in areas && v !in areas[k].pages && FrameUnused(areas, ppn)
    ensures Private(areas[k := areas[k].(pages := areas[k].pages[v := ppn])])
  {
  }

  lemma FaultWf(s: Space, k: nat, v: nat, ppn: nat)
    requires Wf(s) && k in s.areas && s.areas[k].kind == Lazy
    requires s.areas[k].start <= v < s.areas[k].end && v !in s.areas[k].pages
    requires ppn < PPN_LIMIT && FrameUnused(s.areas, ppn)
    ensures Wf(Fault(s, k, v, ppn)) && v !in s.flat
  {
    TranslatedByOwner(s, k, v);
    FaultDisjoint(s.areas, k, v, ppn);
    FaultAgrees(s, k, v, ppn);
    FaultPrivate(s.areas, k, v, ppn);
  }

  lemma MapFileWf(s: Space, lo: nat, hi: nat, perm: Perm, backed: map<nat, nat>)
    requires Wf(s) && lo < hi <= LOW_VPN && FreeRange(s.areas, lo, hi)
    requires forall v | v in backed :: lo <= v < hi
    ensures Wf(MapFile(s, lo, hi, perm, backed))
  {
    var a := Area(lo, hi, perm, Mmap, map[], backed.Keys);
    InsertDisjoint(s.areas, a);
    InsertCovered(s, a, MapFile(s, lo, hi, perm, backed).flat);
    InsertPrivate(s.areas, a);
    MapFileAgrees(s, lo, hi, perm, backed);
  }

  lemma MapFileAgrees(s: Space, lo: nat, hi: nat, perm: Perm, backed: map<nat, nat>)
    requires AllOk(s.areas) && PagesAgree(s) && BackedAgree(s) && FreeRange(s.areas, lo, hi)
    requires forall v | v in backed :: lo <= v < hi
    ensures PagesAgree(MapFile(s, lo, hi, perm, backed)) && BackedAgree(MapFile(s, lo, hi, perm, backed))
  {
  }

  /** The frames of the area's pages differ from each other and back no page of the space yet. */
  ghost predicate FreshPages(areas: Areas, a: Area) {
    && (forall u, v | u in a.pages && v in a.pages :: a.pages[u] == a.pages[v] ==> u == v)
    && (forall v | v in a.pages :: FrameUnused(areas, a.pages[v]))
  }

  lemma LoadedPrivate(areas: Areas, a: Area)
    requires Private(areas) && FreshPages(areas, a) && a.start !in areas
    ensures Private(areas[a.start := a])
  {
    var areas' := areas[a.start := a];
    forall j, k, u, v | j in areas' && k in areas' && u in areas'[j].pages && v in areas'[k].pages
      ensures areas'[j].pages[u] == areas'[k].pages[v] ==> u == v
    {
      if j == a.start { assert FrameUnused(areas, a.pages[u]); }
      if k == a.start { assert FrameUnused(areas, a.pages[v]); }
    }
  }

  lemma LoadedAgrees(s: Space, a: Area)
    requires AllOk(s.areas) && PagesAgree(s) && BackedAgree(s) && FreeRange(s.areas, a.start, a.end)
    requires AreaOk(a.start, a) && a.kind == Lazy
    ensures PagesAgree(Loaded(s, a)) && BackedAgree(Loaded(s, a))
  {
  }

  lemma LoadedWf(s: Space, a: Area)
    requires Wf(s) && AreaOk(a.start, a) && a.kind == Lazy && FreeRange(s.areas, a.start, a.end)
    requires FreshPages(s.areas, a)
    ensures Wf(Loaded(s, a))
  {
    InsertDisjoint(s.areas, a);
    InsertCovered(s, a, Loaded(s, a).flat);
    LoadedPrivate(s.areas, a);
    LoadedAgrees(s, a);
  }

  lemma RemoveAreasWf(s: Space, ks: set<nat>)
    requires Wf(s)
    ensures Wf(RemoveAreas(s, ks))
  {
    RemoveCovered(s, ks);
    RemoveKeeps(s, ks);
    RemoveAgrees(s, ks);
  }

  lemma RemoveAgrees(s: Space, ks: set<nat>)
    requires PagesAgree(s) && BackedAgree(s)
    requires forall j, v | j in s.areas - ks && v in Mapped(s.areas[j]) :: v !in MappedBy(s.areas, ks)
    ensures PagesAgree(RemoveAreas(s, ks)) && BackedAgree(RemoveAreas(s, ks))
  {
    var s' := RemoveAreas(s, ks);
    forall k, v | k in s'.areas && v in s'.areas[k].pages ensures v in s'.flat && s'.flat[v] == PageEntry(s'.areas[k], v) {
      assert v in Mapped(s.areas[k]);
    }
    forall k, v | k in s'.areas && v in s'.areas[k].backed
      ensures v in s'.flat && s'.flat[v].flags == LeafFlags(s'.areas[k].perm)
    {
      assert v in Mapped(s.areas[k]);
    }
  }

  lemma RemoveCovered(s: Space, ks: set<nat>)
    requires FlatCovered(s)
    ensures FlatCovered(RemoveAreas(s, ks))
  {
    var s' := RemoveAreas(s, ks);
    forall v | v in s'.flat ensures Covered(s'.areas, v) {
      var j :| j in s.areas && v in Mapped(s.areas[j]);
      assert j in s'.areas && v in Mapped(s'.areas[j]);
    }
  }

  lemma RemoveKeeps(s: Space, ks: set<nat>)
    requires AllOk(s.areas) && Disjoint(s.areas)
    ensures forall j, v | j in s.areas - ks && v in Mapped(s.areas[j]) :: v !in MappedBy(s.areas, ks)
  {
    forall j, k, v | j in s.areas - ks && v in Mapped(s.areas[j]) && k in s.areas && v in Mapped(s.areas[k]) ensures j == k {
      OwnerUnique(s.areas, j, k, v);
    }
  }

  lemma ShrinkWf(s: Space, k: nat, newEnd: nat)
    requires Wf(s) && k in s.areas && s.areas[k].kind == Lazy && k < newEnd <= s.areas[k].end
    ensures Wf(Shrink(s, k, newEnd))
  {
    ShrinkCovered(s, k, newEnd);
    ShrinkKeeps(s, k, newEnd);
    ShrinkAgrees(s, k, newEnd);
    SubAreaPrivate(s.areas, k, Shrink(s, k, newEnd).areas[k]);
    ShrinkDisjoint(s.areas, k, Shrink(s, k, newEnd).areas[k]);
  }

  lemma ShrinkDisjoint(areas: Areas, k: nat, a: Area)
    requires AllOk(areas) && Disjoint(areas) && k in areas && AreaOk(k, a) && a.end <= areas[k].end
    ensures AllOk(areas[k := a]) && Disjoint(areas[k := a])
  {
  }

  lemma SubAreaPrivate(areas: Areas, k: nat, a: Area)
    requires Private(areas) && k in areas
    requires forall v | v in a.pages :: v in areas[k].pages && a.pages[v] == areas[k].pages[v]
    ensures Private(areas[k := a])
  {
  }

  lemma ShrinkAgrees(s: Space, k: nat, newEnd: nat)
    requires PagesAgree(s) && BackedAgree(s) && k in s.areas && s.areas[k].backed == {}
    requires forall j, v | j in s.areas && j != k && v in Mapped(s.areas[j]) :: v !in Above(s.areas[k], newEnd)
    ensures PagesAgree(Shrink(s, k, newEnd)) && BackedAgree(Shrink(s, k, newEnd))
  {
    var s' := Shrink(s, k, newEnd);
    forall j, v | j in s'.areas && v in s'.areas[j].pages ensures v in s'.flat && s'.flat[v] == PageEntry(s'.areas[j], v) {
      assert v in Mapped(s.areas[j]);
    }
    forall j, v | j in s'.areas && v in s'.areas[j].backed
      ensures v in s'.flat && s'.flat[v].flags == LeafFlags(s'.areas[j].perm)
    {
      assert v in Mapped(s.areas[j]);
    }
  }

  lemma ShrinkCovered(s: Space, k: nat, newEnd: nat)
    requires FlatCovered(s) && k in s.areas
    ensures FlatCovered(Shrink(s, k, newEnd))
  {
    var s' := Shrink(s, k, newEnd);
    forall v | v in s'.flat ensures Covered(s'.areas, v) {
      var j :| j in s.areas && v in Mapped(s.areas[j]);
      assert j in s'.areas && v in Mapped(s'.areas[j]);
    }
  }

  lemma ShrinkKeeps(s: Space, k: nat, newEnd: nat)
    requires AllOk(s.areas) && Disjoint(s.areas) && k in s.areas
    ensures forall j, v | j in s.areas && j != k && v in Mapped(s.areas[j]) :: v !in Above(s.areas[k], newEnd)
  {
    forall j, v | j in s.areas && j != k && v in Mapped(s.areas[j]) ensures v !in Above(s.areas[k], newEnd) {
      if v in Above(s.areas[k], newEnd) { OwnerUnique(s.areas, j, k, v); }
    }
  }

  lemma ExpandDisjointIff(areas: Areas, k: nat, newEnd: nat)
    requires AllOk(areas) && Disjoint(areas) && k in areas && areas[k].end < newEnd
    ensures Disjoint(areas[k := areas[k].(end := newEnd)]) <==> FreeRange(areas, areas[k].end, newEnd)
  {
    var areas' := areas[k := areas[k].(end := newEnd)];
    if Disjoint(areas') {
      forall j | j in areas ensures areas[j].end <= areas[k].end || newEnd <= areas[j].start {
        if j > k { assert j in areas' && k in areas' && areas'[k].end <= j; }
      }
    }
    if FreeRange(areas, areas[k].end, newEnd) {
      forall i, j | i in areas' && j in areas' && i < j ensures areas'[i].end <= j {
        if i == k { assert areas[j].start == j && areas[k].end <= j; }
      }
    }
  }

  lemma ExpandCovered(s: Space, k: nat, newEnd: nat)
    requires FlatCovered(s) && k in s.areas
    ensures FlatCovered(Expand(s, k, newEnd))
  {
    var s' := Expand(s, k, newEnd);
    forall v | v in s'.flat ensures Covered(s'.areas, v) {
      var j :| j in s.areas && v in Mapped(s.areas[j]);
      assert j in s'.areas && v in Mapped(s'.areas[j]);
    }
  }

  /** Growing an area keeps the invariant exactly when the range above it is free and in the user half. */
  lemma ExpandWfIff(s: Space, k: nat, newEnd: nat)
    requires Wf(s) && k in s.areas && s.areas[k].end < newEnd
    ensures Wf(Expand(s, k, newEnd)) <==> newEnd <= LOW_VPN && FreeRange(s.areas, s.areas[k].end, newEnd)
  {
    ExpandDisjointIff(s.areas, k, newEnd);
    ExpandCovered(s, k, newEnd);
    SubAreaPrivate(s.areas, k, s.areas[k].(end := newEnd));
    if newEnd <= LOW_VPN {
      ExpandAgrees(s, k, newEnd);
    } else {
      assert !AreaOk(k, Expand(s, k, newEnd).areas[k]);
    }
  }

  lemma ExpandAgrees(s: Space, k: nat, newEnd: nat)
    requires PagesAgree(s) && BackedAgree(s) && AllOk(s.areas)
    requires k in s.areas && s.areas[k].end <= newEnd <= LOW_VPN
    ensures PagesAgree(Expand(s, k, newEnd)) && BackedAgree(Expand(s, k, newEnd)) && AllOk(Expand(s, k, newEnd).areas)
  {
  }

  /** The range `brk` takes beyond what the heap already holds. */
  ghost predicate BrkRangeFree(areas: Areas, heapStart: nat, newEnd: nat) {
    FreeRange(areas, if heapStart in areas then areas[heapStart].end else heapStart, newEnd)
  }

  /** `brk` never checks for areas above the heap: it keeps the invariant exactly when the heap
      does not grow or grows into a free range. */
  lemma BrkWfIff(s: Space, heapStart: nat, newEnd: nat)
    requires Wf(s) && heapStart < newEnd <= LOW_VPN
    requires heapStart in s.areas ==> s.areas[heapStart].kind == Lazy
    ensures Wf(Brk(s, heapStart, newEnd)) <==>
              (heapStart in s.areas && newEnd <= s.areas[heapStart].end) || BrkRangeFree(s.areas, heapStart, newEnd)
  {
    if heapStart !in s.areas {
      assert s.areas - {heapStart} == s.areas;
      MapAreaWfIff(s, heapStart, newEnd, HEAP_PERM);
    } else if newEnd <= s.areas[heapStart].end {
      ShrinkWf(s, heapStart, newEnd);
    } else {
      ExpandWfIff(s, heapStart, newEnd);
    }
  }

  /** A heap page and a mapping right above it: growing `brk` by one page overlaps the mapping. */
  lemma BrkCanOverlap()
    ensures var s := MapArea(MapArea(EmptySpace(), 16, 17, HEAP_PERM), 17, 18, HEAP_PERM);
            Wf(s) && !Wf(Brk(s, 16, 18))
  {
    var s := MapArea(MapArea(EmptySpace(), 16, 17, HEAP_PERM), 17, 18, HEAP_PERM);
    MapAreaWf(EmptySpace(), 16, 17, HEAP_PERM);
    MapAreaWf(MapArea(EmptySpace(), 16, 17, HEAP_PERM), 17, 18, HEAP_PERM);
    BrkWfIff(s, 16, 18);
    assert 17 in s.areas && s.areas[17].end == 18;
  }

  lemma EntriesAdd(flat0: map<nat, Xlat>, pages: map<nat, nat>, perm: Perm, vpn: nat, ppn: nat)
    ensures flat0 + Entries(pages[vpn := ppn], perm) == (flat0 + Entries(pages, perm))[vpn := Xlat(ppn, LeafFlags(perm))]
  {
  }

  lemma NotYetMapped(flat0: map<nat, Xlat>, pages: map<nat, nat>, perm: Perm, vpn: nat)
    requires vpn !in flat0 && vpn !in pages
    ensures vpn !in flat0 + Entries(pages, perm)
  {
  }

  // ------------------------------------------------------------------ unmap

  /** Keys of the areas that lie inside `lo..hi`. */
  function Inside(areas: Areas, lo: nat, hi: nat): set<nat> {
    set k | k in areas && lo <= areas[k].start && areas[k].end <= hi
  }

  /** The area reaches into `lo..hi` without lying inside it: the case the kernel leaves open. */
  predicate Straddles(a: Area, lo: nat, hi: nat) {
    !(lo <= a.start && a.end <= hi) && lo < a.end && a.start < hi
  }

  function Unmapped(s: Space, lo: nat, hi: nat): Space {
    RemoveAreas(s, Inside(s.areas, lo, hi))
  }

  /** A translated page lies in some area, as one of its mapped pages. */
  lemma TranslatedHasOwner(s: Space, v: nat) returns (k: nat)
    requires AllOk(s.areas) && FlatCovered(s) && v in s.flat
    ensures k in s.areas && v in Mapped(s.areas[k]) && s.areas[k].start <= v < s.areas[k].end
  {
    assert Covered(s.areas, v);
    k :| k in s.areas && v in Mapped(s.areas[k]);
    assert AreaOk(k, s.areas[k]);
  }

  /** Nothing in a free range translates. */
  lemma TranslatedOutside(s: Space, lo: nat, hi: nat)
    requires AllOk(s.areas) && FlatCovered(s) && FreeRange(s.areas, lo, hi)
    ensures forall v | v in s.flat :: !(lo <= v < hi)
  {
    forall v | v in s.flat ensures !(lo <= v < hi) {
      var k := TranslatedHasOwner(s, v);
    }
  }

  lemma InsideMapped(areas: Areas, lo: nat, hi: nat)
    requires AllOk(areas)
    ensures forall v | v in MappedBy(areas, Inside(areas, lo, hi)) :: lo <= v < hi
  {
    forall v | v in MappedBy(areas, Inside(areas, lo, hi)) ensures lo <= v < hi {
      var k :| k in areas && k in Inside(areas, lo, hi) && v in Mapped(areas[k]);
      assert AreaOk(k, areas[k]);
    }
  }

  /** After an unmap that meets no straddling area, the whole range is free, nothing in it
      translates, and every other translation is as before. */
  lemma UnmappedFree(s: Space, lo: nat, hi: nat)
    requires Wf(s) && forall k | k in s.areas :: !Straddles(s.areas[k], lo, hi)
    ensures Wf(Unmapped(s, lo, hi)) && FreeRange(Unmapped(s, lo, hi).areas, lo, hi)
    ensures forall v | v in Unmapped(s, lo, hi).flat :: !(lo <= v < hi)
    ensures forall v | v in s.flat && !(lo <= v < hi) ::
              v in Unmapped(s, lo, hi).flat && Unmapped(s, lo, hi).flat[v] == s.flat[v]
  {
    RemoveAreasWf(s, Inside(s.areas, lo, hi));
    UnmappedRangeFree(s.areas, lo, hi);
    TranslatedOutside(Unmapped(s, lo, hi), lo, hi);
    InsideMapped(s.areas, lo, hi);
  }

  lemma UnmappedRangeFree(areas: Areas, lo: nat, hi: nat)
    requires forall k | k in areas :: !Straddles(areas[k], lo, hi)
    ensures FreeRange(areas - Inside(areas, lo, hi), lo, hi)
  {
  }

  /** A fault inside the area at `k`, with the frame it was given. */
  datatype Fill = Fill(vpn: nat, ppn: nat)

  ghost predicate FillsOk(s: Space, k: nat, fills: seq<Fill>)
    decreases |fills|
  {
    && k in s.areas
    && (fills == [] ||
        (&& s.areas[k].start <= fills[0].vpn < s.areas[k].end
         && fills[0].vpn !in s.areas[k].pages
         && FillsOk(Fault(s, k, fills[0].vpn, fills[0].ppn), k, fills[1..])))
  }

  function Filled(s: Space, k: nat, fills: seq<Fill>): Space
    requires FillsOk(s, k, fills)
    decreases |fills|
  {
    if fills == [] then s else Filled(Fault(s, k, fills[0].vpn, fills[0].ppn), k, fills[1..])
  }

  /** `s'` differs from `s` only in pages of the area at `k` that were not allocated before. */
  ghost predicate OnlyFilled(s: Space, s': Space, k: nat) {
    && k in s.areas && s'.areas.Keys == s.areas.Keys
    && (forall j | j in s.areas && j != k :: s'.areas[j] == s.areas[j])
    && s'.areas[k] == s.areas[k].(pages := s'.areas[k].pages)
    && (forall v | v in s'.areas[k].pages && v !in s.areas[k].pages ::
          s.areas[k].start <= v < s.areas[k].end && v in s'.flat)
    && (forall v | v in s.areas[k].pages :: v in s'.areas[k].pages && s'.areas[k].pages[v] == s.areas[k].pages[v])
    && (forall v | v in s.flat && (v !in s'.areas[k].pages || v in s.areas[k].pages) :: v in s'.flat && s'.flat[v] == s.flat[v])
    && (forall v | v in s'.flat :: v in s.flat || v in s'.areas[k].pages)
  }

  lemma {:induction false} FilledFrame(s: Space, k: nat, fills: seq<Fill>)
    requires FillsOk(s, k, fills)
    ensures OnlyFilled(s, Filled(s, k, fills), k)
    decreases |fills|
  {
    if fills != [] {
      var s1 := Fault(s, k, fills[0].vpn, fills[0].ppn);
      FilledFrame(s1, k, fills[1..]);
      assert OnlyFilled(s, s1, k);
      OnlyFilledTransitive(s, s1, Filled(s, k, fills), k);
    }
  }

  lemma OnlyFilledTransitive(s: Space, s1: Space, s2: Space, k: nat)
    requires OnlyFilled(s, s1, k) && OnlyFilled(s1, s2, k)
    ensures OnlyFilled(s, s2, k)
  {
  }

  /** Taking back an area whose pages came from faults leaves the areas and the translation of before. */
  lemma RemoveFilled(s: Space, s2: Space, a: Area)
    requires a.start !in s.areas && forall v | v in s.flat :: !(a.start <= v < a.end)
    requires Mapped(a) == {} && OnlyFilled(s.(areas := s.areas[a.start := a]), s2, a.start)
    ensures RemoveAreas(s2, {a.start}) == s
  {
    var k := a.start;
    assert s2.areas - {k} == s.areas;
    var gone := MappedBy(s2.areas, {k});
    assert forall v :: v in gone <==> v in s2.areas[k].pages by {
      assert s2.areas[k].backed == {};
      forall v | v in s2.areas[k].pages ensures v in gone {
        assert k in s2.areas && k in {k} && v in Mapped(s2.areas[k]);
      }
    }
    assert s2.flat - gone == s.flat;
  }

  /** Mapping a free range, touching any of its pages and unmapping it again gives the space back. */
  lemma MapFaultUnmapRestores(s: Space, lo: nat, hi: nat, perm: Perm, fills: seq<Fill>)
    requires Wf(s) && lo < hi <= LOW_VPN && FreeRange(s.areas, lo, hi)
    requires FillsOk(MapArea(s, lo, hi, perm), lo, fills)
    ensures Unmapped(Filled(MapArea(s, lo, hi, perm), lo, fills), lo, hi) == s
  {
    var s1 := MapArea(s, lo, hi, perm);
    var s2 := Filled(s1, lo, fills);
    InsertDisjoint(s.areas, s1.areas[lo]);
    FilledFrame(s1, lo, fills);
    assert Inside(s2.areas, lo, hi) == {lo} by {
      forall k | k in s2.areas && k != lo ensures k !in Inside(s2.areas, lo, hi) {
        assert k in s.areas && AreaOk(k, s.areas[k]);
      }
    }
    TranslatedOutside(s, lo, hi);
    RemoveFilled(s, s2, s1.areas[lo]);
  }

  // ------------------------------------------------------- runs of operations

  datatype Op =
    | MapOp(lo: nat, hi: nat, perm: Perm)
    | FileOp(lo: nat, hi: nat, perm: Perm, cached: map<nat, nat>)
    | LoadOp(area: Area)
    | FaultOp(k: nat, vpn: nat, ppn: nat)
    | BrkOp(heapStart: nat, newEnd: nat)
    | UnmapOp(lo: nat, hi: nat)
    | RemoveOp(k: nat)
    | RecycleOp

  /** What each operation relies on: the safety comments of the `unsafe` maps, a lazy area and a fresh
      frame for a fault, room for `brk`, and no straddling area for an unmap. */
  ghost predicate Enabled(s: Space, op: Op) {
    match op
    case MapOp(lo, hi, _) => lo < hi <= LOW_VPN && FreeRange(s.areas, lo, hi)
    case FileOp(lo, hi, _, cached) =>
      lo < hi <= LOW_VPN && FreeRange(s.areas, lo, hi) && forall v | v in cached :: lo <= v < hi
    case LoadOp(a) =>
      AreaOk(a.start, a) && a.kind == Lazy && FreeRange(s.areas, a.start, a.end) && FreshPages(s.areas, a)
    case FaultOp(k, v, ppn) =>
      && k in s.areas && s.areas[k].kind == Lazy && s.areas[k].start <= v < s.areas[k].end
      && v !in s.areas[k].pages && ppn < PPN_LIMIT && FrameUnused(s.areas, ppn)
    case BrkOp(h, e) =>
      && h < e <= LOW_VPN && (h in s.areas ==> s.areas[h].kind == Lazy)
      && ((h in s.areas && e <= s.areas[h].end) || BrkRangeFree(s.areas, h, e))
    case UnmapOp(lo, hi) => forall k | k in s.areas :: !Straddles(s.areas[k], lo, hi)
    case RemoveOp(_) => true
    case RecycleOp => true
  }

  function Apply(s: Space, op: Op): Space
    requires op.FaultOp? ==> op.k in s.areas
  {
    match op
    case MapOp(lo, hi, perm) => MapArea(s, lo, hi, perm)
    case FileOp(lo, hi, perm, cached) => MapFile(s, lo, hi, perm, cached)
    case LoadOp(a) => Loaded(s, a)
    case FaultOp(k, v, ppn) => Fault(s, k, v, ppn)
    case BrkOp(h, e) => Brk(s, h, e)
    case UnmapOp(lo, hi) => Unmapped(s, lo, hi)
    case RemoveOp(k) => RemoveAreas(s, {k})
    case RecycleOp => EmptySpace()
  }

  lemma ApplyWf(s: Space, op: Op)
    requires Wf(s) && Enabled(s, op)
    ensures Wf(Apply(s, op))
  {
    match op
    case MapOp(lo, hi, perm) => MapAreaWf(s, lo, hi, perm);
    case FileOp(lo, hi, perm, cached) => MapFileWf(s, lo, hi, perm, cached);
    case LoadOp(a) => LoadedWf(s, a);
    case FaultOp(k, v, ppn) => FaultWf(s, k, v, ppn);
    case BrkOp(h, e) => BrkWfIff(s, h, e);
    case UnmapOp(lo, hi) => UnmappedFree(s, lo, hi);
    case RemoveOp(k) => RemoveAreasWf(s, {k});
    case RecycleOp =>
  }

  ghost predicate Runs(s: Space, ops: seq<Op>)
    decreases |ops|
  {
    ops == [] || (Enabled(s, ops[0]) && Runs(Apply(s, ops[0]), ops[1..]))
  }

  ghost function Run(s: Space, ops: seq<Op>): Space
    requires Runs(s, ops)
    decreases |ops|
  {
    if ops == [] then s else Run(Apply(s, ops[0]), ops[1..])
  }

  /** The invariant holds in every state any run of operations reaches. */
  lemma {:induction false} RunWf(s: Space, ops: seq<Op>)
    requires Wf(s) && Runs(s, ops)
    ensures Wf(Run(s, ops))
    decreases |ops|
  {
    if ops != [] {
      ApplyWf(s, ops[0]);
      RunWf(Apply(s, ops[0]), ops[1..]);
    }
  }
}
