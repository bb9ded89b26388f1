/** Forking an address space: a second one with the same areas, and the same bytes in frames of its own. */
module Forks {
  import opened Sv39
  import opened PageTree
  import opened PageTables
  import opened AddressSpace
  import opened MmapSearch
  import opened MemorySpaces
  import opened FileMaps
  import opened SideBySide

  /** `b` is a copy of `a`: the same range and rights, and for a lazy area the same pages with equal contents. */
  ghost predicate CopyOf(a: Area, b: Area, pages: Pages) {
    && b.start == a.start && b.end == a.end && b.perm == a.perm && b.kind == a.kind
    && (a.kind == Lazy ==>
          && b.pages.Keys == a.pages.Keys
          && forall v | v in a.pages :: a.pages[v] in pages && b.pages[v] in pages && pages[b.pages[v]] == pages[a.pages[v]])
  }

  lemma CopyReadsAlike(a: Area, b: Area, pages: Pages)
    requires CopyOf(a, b, pages) && a.kind == Lazy
    ensures forall v :: PageOf(b, pages, v) == PageOf(a, pages, v)
  {
  }

  ghost predicate Extends(pages: Pages, pages': Pages) {
    forall p | p in pages :: p in pages' && pages'[p] == pages[p]
  }

  lemma ExtendsOne(pages0: Pages, pages: Pages, p: nat, bytes: seq<Byte>)
    requires Extends(pages0, pages) && p !in pages
    ensures Extends(pages0, pages[p := bytes])
  {
  }

  lemma CopyOfMore(a: Area, b: Area, pages: Pages, pages': Pages)
    requires CopyOf(a, b, pages) && Extends(pages, pages')
    ensures CopyOf(a, b, pages')
  {
  }

  /** The pages a fork maps in the child for one area: allocated pages, or the cached pages of the file. */
  function Wanted(a: Area, cached: map<nat, nat>): set<nat> {
    if a.kind == Lazy then a.pages.Keys else cached.Keys
  }

  /** A child under construction, seen from the memory `t`, `pg`, `free` the fork started with. */
  ghost predicate Growing(dst: MemorySpace, t: Tables, pg: Pages, free: set<nat>)
    reads dst, dst.mem, dst.pt, dst.pt.mem
  {
    && dst.Valid() && dst.Shared() == {}
    && dst.ConfinedSince(t, pg, free, {})
  }

  /** Frames left for the pages still to map. */
  ghost predicate Budget(dst: MemorySpace, all: set<nat>)
    reads dst, dst.mem, dst.pt, dst.pt.mem
  {
    && dst.View().flat.Keys <= all
    && |dst.mem.free| >= 3 * (|all| - |dst.View().flat.Keys|)
  }

  lemma StrictlyFewer(a: set<nat>, b: set<nat>, x: nat)
    requires a <= b && x in b && x !in a
    ensures |a| < |b|
  {
    assert a <= b - {x};
    SubsetCard(a, b - {x});
  }

  lemma {:induction false} SubsetCard(a: set<nat>, b: set<nat>)
    requires a <= b
    ensures |a| <= |b|
  {
    if a != {} {
      var x :| x in a;
      SubsetCard(a - {x}, b - {x});
    }
  }

  /** A fresh frame for page `v` of the child, filled from the frame `from`. */
  method AllocateCopy(dst: MemorySpace, k: nat, v: nat, from: nat) returns (ppn: nat)
    requires dst.Valid() && k in dst.areas && dst.areas[k].kind == Lazy && dst.areas[k].start <= v < dst.areas[k].end
    requires v !in dst.areas[k].pages && |dst.mem.free| >= 3 && from in dst.mem.pages
    modifies dst, dst.mem, dst.pt
    ensures dst.Valid() && ppn !in old(dst.mem.pages) && dst.View() == Fault(old(dst.View()), k, v, ppn)
    ensures dst.mem.pages == old(dst.mem.pages)[ppn := old(dst.mem.pages)[from]]
    ensures dst.ConfinedSince(old(dst.mem.tables), old(dst.mem.pages), old(dst.mem.free), old(dst.Own()))
    ensures |dst.mem.free| >= |old(dst.mem.free)| - 3
    ensures dst.Shared() == old(dst.Shared())
  {
    hide TreeOk, FramesOk, Flat, Confined, Wf, FramesLive;
    ppn := dst.AllocateAt(k, v);
    ghost var pages := dst.mem.pages;
    Rewritten(old(dst.mem.pages), ppn, ZeroPage(), pages[from]);
    ConfinedWrite(old(dst.mem.tables), old(dst.mem.pages), old(dst.mem.free), old(dst.Own()),
                  dst.mem.tables, pages, dst.mem.free, dst.Own(), ppn, pages[from]);
    LiveMore(dst.areas, pages, pages[ppn := pages[from]]);
    dst.mem.WritePage(ppn, dst.mem.pages[from]);
  }

  lemma ConfinedWrite(t: Tables, pg: Pages, f: set<nat>, o: set<nat>, t': Tables, pg': Pages, f': set<nat>, o': set<nat>,
                      p: nat, bytes: seq<Byte>)
    requires Confined(t, pg, f, o, t', pg', f', o') && p !in pg
    ensures Confined(t, pg, f, o, t', pg'[p := bytes], f', o')
  {
  }

  lemma FaultKeys(s: Space, k: nat, v: nat, ppn: nat)
    requires k in s.areas && v !in s.flat
    ensures Fault(s, k, v, ppn).flat.Keys == s.flat.Keys + {v}
    ensures |Fault(s, k, v, ppn).flat.Keys| == |s.flat.Keys| + 1
  {
    assert Fault(s, k, v, ppn).flat.Keys == s.flat.Keys + {v};
  }

  /** Copy one allocated page, keeping count of frames. */
  method CopyPage(dst: MemorySpace, k: nat, v: nat, from: nat, ghost t: Tables, ghost pg: Pages, ghost free: set<nat>, ghost all: set<nat>)
    returns (ppn: nat)
    requires Growing(dst, t, pg, free) && Budget(dst, all) && free !! t.Keys && free !! pg.Keys
    requires k in dst.areas && dst.areas[k].kind == Lazy && dst.areas[k].start <= v < dst.areas[k].end
    requires v !in dst.areas[k].pages && v in all && from in dst.mem.pages
    modifies dst, dst.mem, dst.pt
    ensures Growing(dst, t, pg, free) && Budget(dst, all)
    ensures ppn !in old(dst.mem.pages) && dst.View() == Fault(old(dst.View()), k, v, ppn)
    ensures dst.mem.pages == old(dst.mem.pages)[ppn := old(dst.mem.pages)[from]]
  {
    TranslatedByOwner(dst.View(), k, v);
    StrictlyFewer(dst.View().flat.Keys, all, v);
    ppn := AllocateCopy(dst, k, v, from);
    FaultKeys(old(dst.View()), k, v, ppn);
    ConfinedTransitive(t, pg, free, {}, old(dst.mem.tables), old(dst.mem.pages), old(dst.mem.free), old(dst.Own()),
                       dst.mem.tables, dst.mem.pages, dst.mem.free, dst.Own());
  }

  /** `b` copies `a` for the pages in `done`. */
  ghost predicate PartCopy(a: Area, b: Area, pages: Pages, done: set<nat>) {
    && b.start == a.start && b.end == a.end && b.perm == a.perm && b.kind == Lazy == a.kind && b.backed == {}
    && b.pages.Keys == done
    && forall v | v in done :: v in a.pages && a.pages[v] in pages && b.pages[v] in pages && pages[b.pages[v]] == pages[a.pages[v]]
  }

  lemma PartCopyNone(a: Area, pages: Pages)
    requires a.kind == Lazy
    ensures PartCopy(a, Area(a.start, a.end, a.perm, Lazy, map[], {}), pages, {})
  {
  }

  lemma PartCopyAll(a: Area, b: Area, pages: Pages)
    requires PartCopy(a, b, pages, a.pages.Keys)
    ensures CopyOf(a, b, pages)
  {
  }

  lemma InsertOthers(areas: Areas, k: nat, a: Area)
    ensures OthersKept(areas, areas[k := a], k)
  {
  }

  lemma PartCopyOne(a: Area, b: Area, pages: Pages, done: set<nat>, v: nat, ppn: nat)
    requires PartCopy(a, b, pages, done) && v in a.pages && v !in done && a.pages[v] in pages && ppn !in pages
    ensures PartCopy(a, b.(pages := b.pages[v := ppn]), pages[ppn := pages[a.pages[v]]], done + {v})
  {
  }

  /** The areas are those of before, and one at `k`. */
  ghost predicate OthersKept(before: Areas, areas: Areas, k: nat) {
    && areas.Keys == before.Keys + {k}
    && forall j | j in before && j != k :: areas[j] == before[j]
  }

  lemma FaultOthers(before: Areas, s: Space, k: nat, v: nat, ppn: nat)
    requires OthersKept(before, s.areas, k)
    ensures OthersKept(before, Fault(s, k, v, ppn).areas, k)
  {
  }

  /** Copy a lazy area: map its range, then every allocated page. */
  method CopyLazyArea(dst: MemorySpace, a: Area, ghost t: Tables, ghost pg: Pages, ghost free: set<nat>, ghost all: set<nat>)
    requires Growing(dst, t, pg, free) && Budget(dst, all) && Copyable(a, all, pg, free, t)
    requires FreeRange(dst.areas, a.start, a.end)
    modifies dst, dst.mem, dst.pt
    ensures Growing(dst, t, pg, free) && Budget(dst, all) && Extends(old(dst.mem.pages), dst.mem.pages)
    ensures OthersKept(old(dst.areas), dst.areas, a.start)
    ensures CopyOf(a, dst.areas[a.start], dst.mem.pages)
  {
    ghost var before, pages0 := dst.areas, dst.mem.pages;
    MapRange(dst, a, t, pg, free, all);
    CopyPages(dst, a, before, t, pg, free, all, pages0);
    PartCopyAll(a, dst.areas[a.start], dst.mem.pages);
  }

  /** A copy of `a` in progress: the pages in `done` are copied, the areas of `before` are as they were. */
  ghost predicate Copying(dst: MemorySpace, a: Area, before: Areas, t: Tables, pg: Pages, free: set<nat>,
                          all: set<nat>, pages0: Pages, done: set<nat>)
    reads dst, dst.mem, dst.pt, dst.pt.mem
  {
    && Growing(dst, t, pg, free) && Budget(dst, all) && Extends(pages0, dst.mem.pages)
    && OthersKept(before, dst.areas, a.start) && PartCopy(a, dst.areas[a.start], dst.mem.pages, done)
  }

  /** An area of the parent whose pages were live when the fork began. */
  ghost predicate Copyable(a: Area, all: set<nat>, pg: Pages, free: set<nat>, t: Tables) {
    && AreaOk(a.start, a) && a.kind == Lazy && a.pages.Keys <= all
    && (forall v | v in a.pages :: a.pages[v] in pg)
    && free !! t.Keys && free !! pg.Keys
  }

  method CopyPages(dst: MemorySpace, a: Area, ghost before: Areas, ghost t: Tables, ghost pg: Pages, ghost free: set<nat>,
                   ghost all: set<nat>, ghost pages0: Pages)
    requires Copying(dst, a, before, t, pg, free, all, pages0, {}) && Copyable(a, all, pg, free, t)
    modifies dst, dst.mem, dst.pt
    ensures Copying(dst, a, before, t, pg, free, all, pages0, a.pages.Keys)
  {
    hide Copying, Copyable;
    var vs := Ascending(a.pages.Keys);
    var i := 0;
    PrefixEnds(vs, a.pages.Keys);
    while i < |vs|
      invariant i <= |vs| && Copying(dst, a, before, t, pg, free, all, pages0, Prefix(vs, i))
    {
      NextInOrder(vs, i, a.pages.Keys);
      CopyNext(dst, a, vs[i], Prefix(vs, i), before, t, pg, free, all, pages0);
      PrefixStep(vs, i);
      i := i + 1;
    }
  }

  lemma PrefixEnds(vs: seq<nat>, s: set<nat>)
    requires forall v :: v in vs <==> v in s
    ensures Prefix(vs, 0) == {} && Prefix(vs, |vs|) == s
  {
  }

  lemma NextInOrder(vs: seq<nat>, i: nat, s: set<nat>)
    requires Increasing(vs) && i < |vs| && forall v :: v in vs <==> v in s
    ensures vs[i] in s && vs[i] !in Prefix(vs, i)
  {
  }

  lemma RangeIsNew(s: Space, a: Area)
    requires Wf(s) && AreaOk(a.start, a) && FreeRange(s.areas, a.start, a.end)
    ensures a.start !in s.areas && Wf(MapArea(s, a.start, a.end, a.perm))
  {
    InsertDisjoint(s.areas, a);
    MapAreaWf(s, a.start, a.end, a.perm);
  }

  method MapRange(dst: MemorySpace, a: Area, ghost t: Tables, ghost pg: Pages, ghost free: set<nat>, ghost all: set<nat>)
    requires Growing(dst, t, pg, free) && Budget(dst, all)
    requires AreaOk(a.start, a) && a.kind == Lazy && FreeRange(dst.areas, a.start, a.end)
    requires free !! t.Keys && free !! pg.Keys
    modifies dst, dst.mem
    ensures Growing(dst, t, pg, free) && Budget(dst, all) && dst.mem.pages == old(dst.mem.pages)
    ensures OthersKept(old(dst.areas), dst.areas, a.start)
    ensures PartCopy(a, dst.areas[a.start], dst.mem.pages, {})
  {
    hide Wf, Confined, TreeOk, FramesOk, Flat, FramesLive, OwnTables, KernelTables, PageFrames, PartCopy, OthersKept;
    ghost var b := Area(a.start, a.end, a.perm, Lazy, map[], {});
    RangeIsNew(dst.View(), a);
    PartCopyNone(a, dst.mem.pages);
    InsertOthers(dst.areas, a.start, b);
    dst.UserMap(a.start, a.end, a.perm);
    ConfinedTransitive(t, pg, free, {}, old(dst.mem.tables), old(dst.mem.pages), old(dst.mem.free), old(dst.Own()),
                       dst.mem.tables, dst.mem.pages, dst.mem.free, dst.Own());
    assert dst.areas[a.start] == b;
  }

  lemma PageLive(dst: MemorySpace, a: Area, v: nat, t: Tables, pg: Pages, free: set<nat>)
    requires Growing(dst, t, pg, free) && v in a.pages && a.pages[v] in pg
    ensures a.pages[v] in dst.mem.pages
  {
  }

  method CopyNext(dst: MemorySpace, a: Area, v: nat, ghost done: set<nat>, ghost before: Areas,
                  ghost t: Tables, ghost pg: Pages, ghost free: set<nat>, ghost all: set<nat>, ghost pages0: Pages)
    requires Copying(dst, a, before, t, pg, free, all, pages0, done) && Copyable(a, all, pg, free, t)
    requires v in a.pages && v !in done
    modifies dst, dst.mem, dst.pt
    ensures Copying(dst, a, before, t, pg, free, all, pages0, done + {v})
  {
    PageLive(dst, a, v, t, pg, free);
    ghost var b, pages := dst.areas[a.start], dst.mem.pages;
    var ppn := CopyPage(dst, a.start, v, a.pages[v], t, pg, free, all);
    FaultOthers(before, old(dst.View()), a.start, v, ppn);
    PartCopyOne(a, b, pages, done, v, ppn);
    ExtendsOne(pages0, pages, ppn, pages[a.pages[v]]);
    assert dst.areas[a.start] == b.(pages := b.pages[v := ppn]);
  }

  // ------------------------------------------------------------- whole spaces

  /** What a fork needs to know of the parent's areas and of the page caches behind its file areas. */
  ghost predicate Forkable(areas: Areas, cached: map<nat, map<nat, nat>>, all: set<nat>, pg: Pages, t: Tables, free: set<nat>) {
    && AllOk(areas) && Disjoint(areas) && FramesLive(areas, pg) && free !! t.Keys && free !! pg.Keys
    && (forall k | k in areas && areas[k].kind == Mmap :: k in cached && CachedOk(areas[k], cached[k]))
    && (forall k, v | k in areas && k in cached && v in Wanted(areas[k], cached[k]) :: v in all)
    && (forall k, v | k in areas && areas[k].kind == Lazy && v in areas[k].pages :: v in all)
  }

  ghost predicate CachedOk(a: Area, cached: map<nat, nat>) {
    forall v | v in cached :: a.start <= v < a.end && cached[v] < PPN_LIMIT
  }

  /** The first `n` areas in order are copied. */
  ghost predicate Forked(dst: MemorySpace, areas: Areas, ks: seq<nat>, n: nat, t: Tables, pg: Pages, free: set<nat>, all: set<nat>)
    requires n <= |ks|
    reads dst, dst.mem, dst.pt, dst.pt.mem
  {
    && Growing(dst, t, pg, free) && Budget(dst, all) && CopiedAreas(areas, dst.areas, Prefix(ks, n), dst.mem.pages)
  }

  ghost predicate CopiedAreas(areas: Areas, areas': Areas, ks: set<nat>, pages: Pages) {
    && ks <= areas.Keys && areas'.Keys == ks
    && forall k | k in ks :: CopyOf(areas[k], areas'[k], pages)
  }

  lemma CopiedFree(areas: Areas, areas': Areas, ks: set<nat>, pages: Pages, k: nat)
    requires AllOk(areas) && Disjoint(areas) && CopiedAreas(areas, areas', ks, pages) && k in areas && k !in ks
    ensures FreeRange(areas', areas[k].start, areas[k].end)
  {
    forall j | j in areas' ensures areas'[j].end <= areas[k].start || areas[k].end <= areas'[j].start {
      assert CopyOf(areas[j], areas'[j], pages) && AreaOk(j, areas[j]) && AreaOk(k, areas[k]);
    }
  }

  lemma CopiedOne(areas: Areas, before: Areas, after: Areas, ks: set<nat>, pages: Pages, pages': Pages, k: nat)
    requires CopiedAreas(areas, before, ks, pages) && OthersKept(before, after, k) && Extends(pages, pages')
    requires k in areas && k !in ks && CopyOf(areas[k], after[k], pages')
    ensures CopiedAreas(areas, after, ks + {k}, pages')
  {
    forall j | j in ks ensures CopyOf(areas[j], after[j], pages') { CopyOfMore(areas[j], before[j], pages, pages'); }
  }

  lemma UnionCard(a: set<nat>, b: set<nat>, all: set<nat>)
    requires a !! b && a <= all && b <= all
    ensures |a + b| == |a| + |b| <= |all|
  {
    SubsetCard(a + b, all);
  }

  /** Map a file area of the child from the page cache. */
  method CopyFileArea(dst: MemorySpace, a: Area, cached: map<nat, nat>, ghost t: Tables, ghost pg: Pages, ghost free: set<nat>, ghost all: set<nat>)
    requires Growing(dst, t, pg, free) && Budget(dst, all) && free !! t.Keys && free !! pg.Keys
    requires AreaOk(a.start, a) && a.kind == Mmap && FreeRange(dst.areas, a.start, a.end)
    requires CachedOk(a, cached) && cached.Keys <= all
    modifies dst, dst.mem, dst.pt
    ensures Growing(dst, t, pg, free) && Budget(dst, all) && dst.mem.pages == old(dst.mem.pages)
    ensures OthersKept(old(dst.areas), dst.areas, a.start) && CopyOf(a, dst.areas[a.start], dst.mem.pages)
  {
    ghost var b := Area(a.start, a.end, a.perm, Mmap, map[], cached.Keys);
    FileBudget(dst.View(), a, cached, all, |dst.mem.free|);
    InsertOthers(dst.areas, a.start, b);
    UserMapWithFile(dst, a.start, a.end, a.perm, cached);
    ConfinedTransitive(t, pg, free, {}, old(dst.mem.tables), old(dst.mem.pages), old(dst.mem.free), old(dst.Own()),
                       dst.mem.tables, dst.mem.pages, dst.mem.free, dst.Own());
    assert dst.areas[a.start] == b;
  }

  lemma FileBudget(s: Space, a: Area, cached: map<nat, nat>, all: set<nat>, n: nat)
    requires Wf(s) && FreeRange(s.areas, a.start, a.end) && CachedOk(a, cached) && a.start < a.end <= LOW_VPN
    requires s.flat.Keys <= all && cached.Keys <= all && n >= 3 * (|all| - |s.flat.Keys|)
    ensures n >= 2 * |cached.Keys|
    ensures MapFile(s, a.start, a.end, a.perm, cached).flat.Keys <= all
    ensures n - 2 * |cached.Keys| >= 3 * (|all| - |MapFile(s, a.start, a.end, a.perm, cached).flat.Keys|)
  {
    UncachedYet(s, a, cached);
    UnionCard(s.flat.Keys, cached.Keys, all);
    MapFileKeys(s, a.start, a.end, a.perm, cached);
  }

  lemma UncachedYet(s: Space, a: Area, cached: map<nat, nat>)
    requires Wf(s) && FreeRange(s.areas, a.start, a.end) && CachedOk(a, cached) && a.start < a.end <= LOW_VPN
    ensures s.flat.Keys !! cached.Keys
  {
    TranslatedOutside(s, a.start, a.end);
  }

  lemma MapFileKeys(s: Space, lo: nat, hi: nat, perm: Perm, cached: map<nat, nat>)
    ensures MapFile(s, lo, hi, perm, cached).flat.Keys == s.flat.Keys + cached.Keys
  {
  }

  method ForkArea(dst: MemorySpace, areas: Areas, cached: map<nat, map<nat, nat>>, ks: seq<nat>, n: nat,
                  ghost t: Tables, ghost pg: Pages, ghost free: set<nat>, ghost all: set<nat>)
    requires Forkable(areas, cached, all, pg, t, free) && n < |ks| && ks[n] in areas && ks[n] !in Prefix(ks, n)
    requires Forked(dst, areas, ks, n, t, pg, free, all)
    modifies dst, dst.mem, dst.pt
    ensures Forked(dst, areas, ks, n + 1, t, pg, free, all)
  {
    var a := areas[ks[n]];
    ghost var before, pages := dst.areas, dst.mem.pages;
    assert AreaOk(ks[n], a);
    CopiedFree(areas, dst.areas, Prefix(ks, n), dst.mem.pages, ks[n]);
    if a.kind == Mmap {
      assert forall v | v in cached[ks[n]].Keys :: v in Wanted(a, cached[ks[n]]);
      CopyFileArea(dst, a, cached[ks[n]], t, pg, free, all);
    } else {
      CopyLazyArea(dst, a, t, pg, free, all);
    }
    CopiedOne(areas, before, dst.areas, Prefix(ks, n), pages, dst.mem.pages, ks[n]);
    PrefixStep(ks, n);
  }

  method ForkAreas(dst: MemorySpace, areas: Areas, cached: map<nat, map<nat, nat>>,
                   ghost t: Tables, ghost pg: Pages, ghost free: set<nat>, ghost all: set<nat>)
    requires Forkable(areas, cached, all, pg, t, free)
    requires Growing(dst, t, pg, free) && Budget(dst, all) && dst.areas == map[]
    modifies dst, dst.mem, dst.pt
    ensures Growing(dst, t, pg, free) && CopiedAreas(areas, dst.areas, areas.Keys, dst.mem.pages)
  {
    hide Forkable, Growing, Budget;
    var ks := Ascending(areas.Keys);
    PrefixEnds(ks, areas.Keys);
    ForkInOrder(dst, areas, cached, ks, t, pg, free, all);
  }

  method ForkInOrder(dst: MemorySpace, areas: Areas, cached: map<nat, map<nat, nat>>, ks: seq<nat>,
                     ghost t: Tables, ghost pg: Pages, ghost free: set<nat>, ghost all: set<nat>)
    requires Forkable(areas, cached, all, pg, t, free) && Increasing(ks) && (forall k :: k in ks <==> k in areas)
    requires Forked(dst, areas, ks, 0, t, pg, free, all)
    modifies dst, dst.mem, dst.pt
    ensures Forked(dst, areas, ks, |ks|, t, pg, free, all)
  {
    hide Forked, Forkable;
    var i := 0;
    while i < |ks|
      invariant i <= |ks| && Forked(dst, areas, ks, i, t, pg, free, all)
    {
      NextInOrder(ks, i, areas.Keys);
      ForkArea(dst, areas, cached, ks, i, t, pg, free, all);
      i := i + 1;
    }
  }

  // ------------------------------------------------------------- a whole fork

  /** Every page a fork of these areas maps. */
  function AllWanted(areas: Areas, cached: map<nat, map<nat, nat>>): set<nat> {
    set k, v | k in areas && v in WantedAt(areas, cached, k) :: v
  }

  function WantedAt(areas: Areas, cached: map<nat, map<nat, nat>>, k: nat): set<nat>
    requires k in areas
  {
    Wanted(areas[k], if k in cached then cached[k] else map[])
  }

  ghost predicate CachesOk(areas: Areas, cached: map<nat, map<nat, nat>>) {
    forall k | k in areas && areas[k].kind == Mmap :: k in cached && CachedOk(areas[k], cached[k])
  }

  lemma CanFork(areas: Areas, cached: map<nat, map<nat, nat>>, pg: Pages, t: Tables, free: set<nat>)
    requires AllOk(areas) && Disjoint(areas) && FramesLive(areas, pg) && free !! t.Keys && free !! pg.Keys
    requires CachesOk(areas, cached)
    ensures Forkable(areas, cached, AllWanted(areas, cached), pg, t, free)
  {
    forall k, v | k in areas && v in WantedAt(areas, cached, k) ensures v in AllWanted(areas, cached) {}
    assert forall k | k in areas && k in cached :: WantedAt(areas, cached, k) == Wanted(areas[k], cached[k]);
    assert forall k | k in areas && areas[k].kind == Lazy :: WantedAt(areas, cached, k) == areas[k].pages.Keys;
  }

  lemma SharedOwn(root: nat, slot: Slots, kslot: Slots)
    requires slot.Keys !! kslot.Keys
    ensures OwnTables(root, SharedSlots(slot, kslot)) == OwnTables(root, slot)
    ensures KernelTables(SharedSlots(slot, kslot)) <= KernelTables(slot) + kslot.Keys
  {
  }

  /** Nothing a fork built from free frames is a table of a tree that stood before. */
  lemma NewTablesApart(t: Tables, free: set<nat>, kroot: nat, kslot: Slots, root: nat, slot: Slots)
    requires TreeOk(t, kroot, kslot) && free !! t.Keys && OwnTables(root, slot) <= free && KernelTables(slot) == {}
    ensures kroot != root && root !in kslot && kroot !in slot && slot.Keys !! kslot.Keys
  {
    assert forall p | p in slot :: p in OwnTables(root, slot) || p in KernelTables(slot);
  }

  lemma RootRewritten(t: Tables, pg: Pages, free: set<nat>, t1: Tables, free1: set<nat>, own1: set<nat>, t2: Tables, pg1: Pages, root: nat)
    requires Confined(t, pg, free, {}, t1, pg1, free1, own1) && root in own1 && free !! t.Keys
    requires forall p | p in t1 && p != root :: p in t2 && t2[p] == t1[p]
    ensures Confined(t, pg, free, {}, t2, pg1, free1, own1)
  {
  }

  /** The kernel's lines translate as they do in the kernel's own table. */
  ghost predicate KernelHalfOf(pt: PageTable, kernel: PageTable)
    reads pt, pt.mem, kernel, kernel.mem
  {
    forall v: nat | KernelLine(I0(v)) :: pt.Translate(v) == kernel.Translate(v)
  }

  /** Link the kernel's lines into a finished child. */
  method LinkKernel(dst: MemorySpace, kernel: PageTable, ghost t: Tables, ghost pg: Pages, ghost free: set<nat>)
    requires Growing(dst, t, pg, free) && TableStood(kernel, t) && kernel.mem == dst.mem && kernel != dst.pt
    requires free !! t.Keys
    modifies dst.mem`tables, dst.pt`slot
    ensures dst.Valid() && dst.View() == old(dst.View()) && dst.Own() == old(dst.Own()) && kernel.Valid()
    ensures dst.ConfinedSince(t, pg, free, {})
    ensures KernelHalfOf(dst.pt, kernel)
    ensures dst.Shared() <= kernel.slot.Keys
  {
    hide Leaf, Flat, Wf, FramesLive, Confined, OwnTables, KernelTables, PageFrames, SharedSlots, TreeOk, FramesOk;
    TableStays(kernel, dst, t, pg, free);
    GrowingOwn(dst, t, pg, free);
    NewTablesApart(t, free, kernel.root, kernel.slot, dst.pt.root, dst.pt.slot);
    SharedOwn(dst.pt.root, dst.pt.slot, kernel.slot);
    dst.pt.MapKernelAreas(kernel);
    LowLinesKept(old(dst.mem.tables), dst.mem.tables, dst.pt.root, kernel.root);
    RootRewritten(t, pg, free, old(dst.mem.tables), dst.mem.free, dst.Own(), dst.mem.tables, dst.mem.pages, dst.pt.root);
  }

  lemma GrowingOwn(dst: MemorySpace, t: Tables, pg: Pages, free: set<nat>)
    requires Growing(dst, t, pg, free)
    ensures OwnTables(dst.pt.root, dst.pt.slot) <= free && dst.pt.root in dst.Own()
  {
  }

  lemma LowLinesKept(t: Tables, t': Tables, root: nat, kroot: nat)
    requires forall v: nat :: Leaf(t', root, v) == if KernelLine(I0(v)) then Leaf(t, kroot, v) else Leaf(t, root, v)
    ensures Flat(t', root) == Flat(t, root)
  {
    forall v: nat | v < LOW_VPN ensures Leaf(t', root, v) == Leaf(t, root, v) { IndexesCompose(v); }
    SameFlat(t, t', root);
  }

  /** A page table that is valid in memory with the tables `t`. */
  ghost predicate TableStood(pt: PageTable, t: Tables)
    reads pt
  {
    TreeOk(t, pt.root, pt.slot) && FramesOk(pt.slot, pt.frames, pt.ownLines)
  }

  /** An address space that is valid in memory with the tables `t` and the pages `pg`. */
  ghost predicate SpaceStood(ms: MemorySpace, t: Tables, pg: Pages)
    reads ms, ms.pt
  {
    && TableStood(ms.pt, t) && ms.pt.mem == ms.mem && ms.pt.ownLines == USER_LINES
    && FramesLive(ms.areas, pg) && Wf(Space(ms.areas, Flat(t, ms.pt.root)))
  }

  lemma Stands(ms: MemorySpace, pt: PageTable)
    requires ms.Valid() && pt.Valid() && pt.mem == ms.mem
    ensures SpaceStood(ms, ms.mem.tables, ms.mem.pages) && TableStood(pt, pt.mem.tables)
    ensures ms.View() == Space(ms.areas, Flat(ms.mem.tables, ms.pt.root))
    ensures ms.mem.free !! ms.mem.tables.Keys && ms.mem.free !! ms.mem.pages.Keys
  {
  }

  /** What was valid before the child took free frames still is, and translates alike. */
  lemma TableStays(pt: PageTable, dst: MemorySpace, t: Tables, pg: Pages, free: set<nat>)
    requires TableStood(pt, t) && dst.Valid() && dst.ConfinedSince(t, pg, free, {}) && pt.mem == dst.mem
    ensures pt.Valid() && SameLeaves(t, pt.mem.tables, pt.root)
  {
    TreeFrame(t, pt.mem.tables, pt.root, pt.slot);
  }

  lemma SpaceStays(ms: MemorySpace, dst: MemorySpace, t: Tables, pg: Pages, free: set<nat>)
    requires SpaceStood(ms, t, pg) && free !! t.Keys && free !! pg.Keys
    requires dst.Valid() && dst.ConfinedSince(t, pg, free, {}) && ms.mem == dst.mem
    ensures ms.Valid() && ms.View() == Space(ms.areas, Flat(t, ms.pt.root))
    ensures dst.Own() <= free && dst.Own() !! ms.Own() && Extends(pg, ms.mem.pages)
  {
    TableStays(ms.pt, dst, t, pg, free);
    SameFlat(t, ms.mem.tables, ms.pt.root);
    LiveMore(ms.areas, pg, ms.mem.pages);
    assert OwnTables(ms.pt.root, ms.pt.slot) <= t.Keys && PageFrames(ms.areas) <= pg.Keys;
  }

  method StartChild(mem: FrameMemory, ghost all: set<nat>) returns (dst: MemorySpace)
    requires mem.Valid() && |mem.free| >= 1 + 3 * |all|
    modifies mem
    ensures fresh(dst) && fresh(dst.pt) && dst.mem == mem && dst.areas == map[]
    ensures Growing(dst, old(mem.tables), old(mem.pages), old(mem.free)) && Budget(dst, all)
  {
    dst := new MemorySpace.NewBare(mem);
    assert dst.View().flat.Keys == {};
  }

  lemma ParentForkable(src: MemorySpace, cached: map<nat, map<nat, nat>>)
    requires src.Valid() && CachesOk(src.areas, cached)
    ensures src.mem.Valid()
    ensures Forkable(src.areas, cached, AllWanted(src.areas, cached), src.mem.pages, src.mem.tables, src.mem.free)
  {
    CanFork(src.areas, cached, src.mem.pages, src.mem.tables, src.mem.free);
  }

  /** The child, before the kernel's lines are linked. */
  method CopyUserHalf(src: MemorySpace, cached: map<nat, map<nat, nat>>) returns (dst: MemorySpace)
    requires src.Valid()
    requires CachesOk(src.areas, cached) && |src.mem.free| >= 1 + 3 * |AllWanted(src.areas, cached)|
    modifies src.mem
    ensures fresh(dst) && fresh(dst.pt) && dst.mem == src.mem
    ensures Growing(dst, old(src.mem.tables), old(src.mem.pages), old(src.mem.free))
    ensures CopiedAreas(src.areas, dst.areas, src.areas.Keys, src.mem.pages)
  {
    hide *;
    ghost var t, pg, free := src.mem.tables, src.mem.pages, src.mem.free;
    ParentForkable(src, cached);
    dst := StartChild(src.mem, AllWanted(src.areas, cached));
    ForkAreas(dst, src.areas, cached, t, pg, free, AllWanted(src.areas, cached));
  }

  const PARENT: nat := 0
  const CHILD: nat := 1

  ghost function KernelFrames(kernel: PageTable): set<nat>
    reads kernel
  {
    {kernel.root} + kernel.slot.Keys
  }

  /** `ms` links tables of `kernel`, and owns none of them. */
  ghost predicate LinksTo(ms: MemorySpace, kernel: PageTable)
    reads ms, ms.pt, kernel
  {
    ms.Shared() <= KernelFrames(kernel) && ms.Own() !! KernelFrames(kernel)
  }

  ghost function Alone(src: MemorySpace, kernel: PageTable, t: Tables, pg: Pages, free: set<nat>): World
    reads src, src.pt, kernel
  {
    World(t, pg, free, KernelFrames(kernel), map[PARENT := TenantOf(src)])
  }

  /** Parent and child in their common memory. */
  ghost function Family(src: MemorySpace, dst: MemorySpace, kernel: PageTable): World
    reads src, src.mem, src.pt, dst, dst.pt, kernel
  {
    World(src.mem.tables, src.mem.pages, src.mem.free, KernelFrames(kernel), map[PARENT := TenantOf(src), CHILD := TenantOf(dst)])
  }

  lemma AloneOk(src: MemorySpace, kernel: PageTable, t: Tables, pg: Pages, free: set<nat>)
    requires SpaceStood(src, t, pg) && TableStood(kernel, t) && free !! t.Keys && free !! pg.Keys && LinksTo(src, kernel)
    ensures WorldOk(Alone(src, kernel, t, pg, free))
  {
  }

  lemma FamilyOk(src: MemorySpace, dst: MemorySpace, kernel: PageTable, t: Tables, pg: Pages, free: set<nat>)
    requires SpaceStood(src, t, pg) && TableStood(kernel, t) && free !! t.Keys && free !! pg.Keys && LinksTo(src, kernel)
    requires dst.Valid() && dst.mem == src.mem && dst.ConfinedSince(t, pg, free, {}) && dst.Shared() <= kernel.slot.Keys
    ensures WorldOk(Family(src, dst, kernel))
  {
    var w := Alone(src, kernel, t, pg, free);
    AloneOk(src, kernel, t, pg, free);
    hide WorldOk, Confined, KernelTables, OwnTables, Wf, FramesLive;
    SpawnHappens(w, CHILD, dst);
    StepLeavesOthers(w, WorldWith(w, CHILD, dst), Spawn(CHILD));
    assert WorldWith(w, CHILD, dst) == Family(src, dst, kernel);
  }

  /** What a fork of `src` has made in the memory `t`, `pg`, `free`. The child is valid, on frames that were free, and
      every page of every lazy area reads as the parent's from a frame of the child's own. The parent, and every other
      page in memory, is as it was. The kernel's lines translate as in the kernel's table, and if the parent links that
      table too, the two stand side by side. */
  ghost predicate ForkOf(src: MemorySpace, dst: MemorySpace, kernel: PageTable, before: Space, t: Tables, pg: Pages, free: set<nat>)
    reads src, src.mem, src.pt, src.pt.mem, dst, dst.mem, dst.pt, dst.pt.mem, kernel, kernel.mem
  {
    && dst.mem == src.mem && dst.Valid() && src.Valid() && src.View() == before && kernel.Valid()
    && Extends(pg, src.mem.pages) && CopiedAreas(src.areas, dst.areas, src.areas.Keys, src.mem.pages)
    && dst.Own() <= free && dst.Own() !! src.Own() && dst.ConfinedSince(t, pg, free, {})
    && KernelHalfOf(dst.pt, kernel)
    && (LinksTo(src, kernel) ==> WorldOk(Family(src, dst, kernel)))
  }

  /** Link the kernel's lines; the parent still stands as it did. */
  method FinishFork(src: MemorySpace, dst: MemorySpace, kernel: PageTable, ghost t: Tables, ghost pg: Pages, ghost free: set<nat>)
    requires Growing(dst, t, pg, free) && SpaceStood(src, t, pg) && TableStood(kernel, t) && free !! t.Keys && free !! pg.Keys
    requires src.mem == dst.mem == kernel.mem && src != dst && src.pt != dst.pt && kernel != dst.pt
    requires CopiedAreas(src.areas, dst.areas, src.areas.Keys, src.mem.pages)
    modifies dst.mem`tables, dst.pt`slot
    ensures ForkOf(src, dst, kernel, Space(src.areas, Flat(t, src.pt.root)), t, pg, free)
  {
    hide *;
    LinkKernel(dst, kernel, t, pg, free);
    SpaceStays(src, dst, t, pg, free);
    FinishedFork(src, dst, kernel, t, pg, free);
  }

  lemma FinishedFork(src: MemorySpace, dst: MemorySpace, kernel: PageTable, t: Tables, pg: Pages, free: set<nat>)
    requires SpaceStood(src, t, pg) && TableStood(kernel, t) && free !! t.Keys && free !! pg.Keys
    requires src.mem == dst.mem && dst.Valid() && src.Valid() && kernel.Valid()
    requires src.View() == Space(src.areas, Flat(t, src.pt.root)) && Extends(pg, src.mem.pages)
    requires CopiedAreas(src.areas, dst.areas, src.areas.Keys, src.mem.pages)
    requires dst.Own() <= free && dst.Own() !! src.Own() && dst.ConfinedSince(t, pg, free, {})
    requires KernelHalfOf(dst.pt, kernel) && dst.Shared() <= kernel.slot.Keys
    ensures ForkOf(src, dst, kernel, Space(src.areas, Flat(t, src.pt.root)), t, pg, free)
  {
    hide MemorySpace.Valid, MemorySpace.ConfinedSince, PageTable.Valid, SpaceStood, TableStood, CopiedAreas, Extends, WorldOk, KernelHalfOf;
    if LinksTo(src, kernel) { FamilyOk(src, dst, kernel, t, pg, free); }
  }

  /** Fork an address space. */
  method FromOther(src: MemorySpace, kernel: PageTable, cached: map<nat, map<nat, nat>>) returns (dst: MemorySpace)
    requires src.Valid() && kernel.Valid() && kernel.mem == src.mem
    requires CachesOk(src.areas, cached) && |src.mem.free| >= 1 + 3 * |AllWanted(src.areas, cached)|
    modifies src.mem
    ensures fresh(dst) && fresh(dst.pt)
    ensures ForkOf(src, dst, kernel, old(src.View()), old(src.mem.tables), old(src.mem.pages), old(src.mem.free))
  {
    hide *;
    ghost var t, pg, free := src.mem.tables, src.mem.pages, src.mem.free;
    Stands(src, kernel);
    dst := CopyUserHalf(src, cached);
    FinishFork(src, dst, kernel, t, pg, free);
  }

  /** A fork is a snapshot. Whatever the parent and every other address space do after it, a child that does nothing
      reads in every lazy area what the parent read when it forked; and so does a parent that does nothing. */
  lemma ForkIsSnapshot(ws: seq<World>, es: seq<Event>, k: nat, v: nat)
    requires Interleaved(ws, es) && WorldOk(ws[0]) && PARENT in ws[0].tenants && CHILD in ws[0].tenants
    requires var parent, child := ws[0].tenants[PARENT].areas, ws[0].tenants[CHILD].areas;
             CopiedAreas(parent, child, parent.Keys, ws[0].pages) && k in parent && parent[k].kind == Lazy
    ensures var parent, child, now := ws[0].tenants[PARENT].areas[k], ws[0].tenants[CHILD].areas[k], ws[|es|].pages;
            && (Act(CHILD) !in es ==> PageOf(child, now, v) == PageOf(parent, ws[0].pages, v))
            && (Act(PARENT) !in es ==> PageOf(parent, now, v) == PageOf(parent, ws[0].pages, v))
  {
    CopyReadsAlike(ws[0].tenants[PARENT].areas[k], ws[0].tenants[CHILD].areas[k], ws[0].pages);
    if Act(CHILD) !in es { IdleReadsAlike(ws, es, CHILD, |es|); }
    if Act(PARENT) !in es { IdleReadsAlike(ws, es, PARENT, |es|); }
  }
}
