/** Mapping a file: the pages already in its page cache are mapped at once, the others not at all. */
module FileMaps {
  import opened Sv39
  import opened PageTree
  import opened PageTables
  import opened AddressSpace
  import opened MmapSearch
  import opened MemorySpaces

  /** The cached pages among the first `n` page numbers in order. */
  ghost function FirstOf(cached: map<nat, nat>, vs: seq<nat>, n: nat): map<nat, nat>
    requires n <= |vs|
  {
    map v | v in cached && v in Prefix(vs, n) :: cached[v]
  }

  lemma FirstOfStep(cached: map<nat, nat>, vs: seq<nat>, n: nat)
    requires n < |vs| && Increasing(vs) && vs[n] in cached
    ensures FirstOf(cached, vs, n + 1) == FirstOf(cached, vs, n)[vs[n] := cached[vs[n]]]
    ensures vs[n] !in FirstOf(cached, vs, n)
  {
    PrefixStep(vs, n);
  }

  lemma FirstOfEnds(cached: map<nat, nat>, vs: seq<nat>, flat: map<nat, Xlat>, perm: Perm)
    requires forall v :: v in vs <==> v in cached
    ensures FirstOf(cached, vs, |vs|) == cached && flat + Entries(FirstOf(cached, vs, 0), perm) == flat
  {
    assert Prefix(vs, 0) == {};
    assert forall v | v in cached :: v in Prefix(vs, |vs|);
  }

  /** A file mapping in progress on the space `s`: the entries of `mapped` are in the page table. */
  ghost predicate Mapping(ms: MemorySpace, s: Space, mapped: map<nat, nat>, perm: Perm, pages: Pages,
                          t: Tables, free: set<nat>, own: set<nat>, shared: set<nat>)
    reads ms, ms.mem, ms.pt, ms.pt.mem
  {
    && ms.Consistent() && ms.areas == s.areas && ms.pt.FlatMap() == s.flat + Entries(mapped, perm)
    && ms.mem.pages == pages && ms.ConfinedSince(t, pages, free, own)
    && ms.Shared() == shared
  }

  method UserMapWithFile(ms: MemorySpace, lo: nat, hi: nat, perm: Perm, cached: map<nat, nat>)
    requires ms.Valid() && lo < hi <= LOW_VPN && FreeRange(ms.areas, lo, hi)
    requires forall v | v in cached :: lo <= v < hi && cached[v] < PPN_LIMIT
    requires |ms.mem.free| >= 2 * |cached.Keys|
    modifies ms, ms.mem, ms.pt
    ensures ms.Valid() && ms.View() == MapFile(old(ms.View()), lo, hi, perm, cached)
    ensures ms.mem.pages == old(ms.mem.pages) && |ms.mem.free| >= |old(ms.mem.free)| - 2 * |cached.Keys|
    ensures ms.ConfinedSince(old(ms.mem.tables), old(ms.mem.pages), old(ms.mem.free), old(ms.Own()))
    ensures ms.Shared() == old(ms.Shared())
  {
    ghost var s := ms.View();
    TranslatedOutside(s, lo, hi);
    MapFileWf(s, lo, hi, perm, cached);
    InitBackedInode(ms, perm, cached);
    InsertEmptyFrames(ms.areas, lo, Area(lo, hi, perm, Mmap, map[], cached.Keys), ms.mem.pages);
    ms.areas := ms.areas[lo := Area(lo, hi, perm, Mmap, map[], cached.Keys)];
    assert ms.View() == MapFile(s, lo, hi, perm, cached);
  }

  /** Map the cached pages one by one, in ascending order. */
  method InitBackedInode(ms: MemorySpace, perm: Perm, cached: map<nat, nat>)
    requires ms.Consistent() && |ms.mem.free| >= 2 * |cached.Keys|
    requires forall v | v in cached :: v < LOW_VPN && v !in ms.pt.FlatMap() && cached[v] < PPN_LIMIT
    modifies ms.mem, ms.pt
    ensures Mapping(ms, old(ms.View()), cached, perm, old(ms.mem.pages), old(ms.mem.tables), old(ms.mem.free), old(ms.Own()),
                    old(ms.Shared()))
    ensures |ms.mem.free| >= |old(ms.mem.free)| - 2 * |cached.Keys|
  {
    var vs := Ascending(cached.Keys);
    hide Mapping, FirstOf, Entries, Flat, TreeOk, FramesOk, FramesLive, Confined;
    FirstOfEnds(cached, vs, ms.pt.FlatMap(), perm);
    MappingStarts(ms, FirstOf(cached, vs, 0), perm);
    MapInOrder(ms, vs, perm, cached, ms.View(), ms.mem.pages, ms.mem.tables, ms.mem.free, ms.Own(), ms.Shared());
  }

  lemma MappingStarts(ms: MemorySpace, none: map<nat, nat>, perm: Perm)
    requires ms.Consistent() && ms.pt.FlatMap() + Entries(none, perm) == ms.pt.FlatMap()
    ensures Mapping(ms, ms.View(), none, perm, ms.mem.pages, ms.mem.tables, ms.mem.free, ms.Own(), ms.Shared())
  {
  }

  ghost predicate Mappable(cached: map<nat, nat>, vs: seq<nat>, flat: map<nat, Xlat>) {
    && Increasing(vs) && (forall v :: v in vs <==> v in cached)
    && forall v | v in cached :: v < LOW_VPN && v !in flat && cached[v] < PPN_LIMIT
  }

  method MapInOrder(ms: MemorySpace, vs: seq<nat>, perm: Perm, cached: map<nat, nat>, ghost s: Space,
                    ghost pages: Pages, ghost t: Tables, ghost free: set<nat>, ghost own: set<nat>, ghost shared: set<nat>)
    requires Mappable(cached, vs, s.flat) && |ms.mem.free| >= 2 * |vs| && free !! t.Keys && free !! pages.Keys
    requires Mapping(ms, s, FirstOf(cached, vs, 0), perm, pages, t, free, own, shared)
    modifies ms.mem, ms.pt
    ensures Mapping(ms, s, FirstOf(cached, vs, |vs|), perm, pages, t, free, own, shared)
    ensures |ms.mem.free| >= |old(ms.mem.free)| - 2 * |vs|
  {
    hide Mapping;
    var i := 0;
    while i < |vs|
      invariant i <= |vs| && |ms.mem.free| >= |old(ms.mem.free)| - 2 * i
      invariant Mapping(ms, s, FirstOf(cached, vs, i), perm, pages, t, free, own, shared)
    {
      assert vs[i] in vs;
      FirstOfStep(cached, vs, i);
      MapOne(ms, vs[i], cached[vs[i]], perm, s, FirstOf(cached, vs, i), pages, t, free, own, shared);
      i := i + 1;
    }
  }

  method MapOne(ms: MemorySpace, v: nat, ppn: nat, perm: Perm, ghost s: Space, ghost mapped: map<nat, nat>,
                ghost pages: Pages, ghost t: Tables, ghost free: set<nat>, ghost own: set<nat>, ghost shared: set<nat>)
    requires Mapping(ms, s, mapped, perm, pages, t, free, own, shared)
    requires v < LOW_VPN && v !in s.flat && v !in mapped && ppn < PPN_LIMIT && |ms.mem.free| >= 2
    requires free !! t.Keys && free !! pages.Keys
    modifies ms.mem, ms.pt
    ensures Mapping(ms, s, mapped[v := ppn], perm, pages, t, free, own, shared)
    ensures |ms.mem.free| >= |old(ms.mem.free)| - 2
  {
    NotYetMapped(s.flat, mapped, perm, v);
    ms.FlatAbsent(v);
    EntriesAdd(s.flat, mapped, perm, v, ppn);
    ms.pt.Map(v, ppn, perm);
    GrownOwn(old(ms.mem.tables), old(ms.pt.slot), old(ms.mem.free), ms.mem.tables, ms.pt.slot, ms.mem.free, ms.pt.root, I0(v));
    MapConfined(t, pages, free, own, old(ms.mem.tables), old(ms.mem.free), OwnTables(ms.pt.root, old(ms.pt.slot)),
                PageFrames(ms.areas), ms.mem.tables, ms.mem.free, OwnTables(ms.pt.root, ms.pt.slot));
  }

  lemma MapConfined(t: Tables, pg: Pages, f: set<nat>, o: set<nat>, t1: Tables, f1: set<nat>, ot1: set<nat>, pf: set<nat>,
                    t2: Tables, f2: set<nat>, ot2: set<nat>)
    requires Confined(t, pg, f, o, t1, pg, f1, ot1 + pf) && f !! t.Keys && f !! pg.Keys
    requires forall p | p in t1 && p !in ot1 :: p in t2 && t2[p] == t1[p]
    requires ot2 <= ot1 + f1 && f2 <= f1
    ensures Confined(t, pg, f, o, t2, pg, f2, ot2 + pf)
  {
  }
}
