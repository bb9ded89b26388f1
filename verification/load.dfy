/** Loading a program segment: a new area whose pages are allocated at once and filled with data. */
module Segments {
  import opened Sv39
  import opened PageTree
  import opened PageTables
  import opened AddressSpace
  import opened MemorySpaces

  /** Page `i` of the image of `data` placed `offset` bytes into a run of zero pages. */
  ghost function ImagePage(data: seq<Byte>, offset: nat, i: nat): seq<Byte> {
    seq<Byte>(PAGE_SIZE, j requires 0 <= j < PAGE_SIZE => ImageByte(data, offset, i * PAGE_SIZE + j))
  }

  ghost function ImageByte(data: seq<Byte>, offset: nat, at: nat): Byte {
    if offset <= at < offset + |data| then data[at - offset] else 0
  }

  /** A zero page with `part` copied in at `at`. */
  function WithSlice(at: nat, part: seq<Byte>): (page: seq<Byte>)
    requires at + |part| <= PAGE_SIZE
    ensures |page| == PAGE_SIZE
    ensures forall j | 0 <= j < PAGE_SIZE :: page[j] == if at <= j < at + |part| then part[j - at] else 0
  {
    ZeroPage()[..at] + part + ZeroPage()[at + |part|..]
  }

  /** How much of the data is placed before page `i`, and where it continues in that page. */
  ghost predicate Progress(data: seq<Byte>, offset: nat, i: nat, start: nat, at: nat) {
    && start <= |data|
    && at == (if i == 0 then offset else 0)
    && start == if i == 0 then 0 else if i * PAGE_SIZE - offset < |data| then i * PAGE_SIZE - offset else |data|
  }

  lemma SliceIsImage(data: seq<Byte>, offset: nat, i: nat, start: nat, at: nat, len: nat)
    requires offset < PAGE_SIZE && Progress(data, offset, i, start, at)
    requires len == if |data| - start < PAGE_SIZE - at then |data| - start else PAGE_SIZE - at
    ensures WithSlice(at, data[start..start + len]) == ImagePage(data, offset, i)
    ensures Progress(data, offset, i + 1, start + len, 0)
  {
    var page := WithSlice(at, data[start..start + len]);
    forall j | 0 <= j < PAGE_SIZE ensures page[j] == ImageByte(data, offset, i * PAGE_SIZE + j) {
    }
  }

  /** Pages `lo..vpn` are allocated as `pages`, each in a frame of its own that was not in use. */
  ghost predicate Allocated(pages0: Pages, lo: nat, vpn: nat, pages: map<nat, nat>) {
    && lo <= vpn
    && (forall v :: v in pages <==> lo <= v < vpn)
    && (forall u, v | u in pages && v in pages :: pages[u] == pages[v] ==> u == v)
    && (forall v | v in pages :: pages[v] !in pages0 && pages[v] < PPN_LIMIT)
  }

  /** The allocated pages hold the image, and frames in use before hold what they held. */
  ghost predicate Holds(pages0: Pages, pages': Pages, lo: nat, pages: map<nat, nat>, data: seq<Byte>, offset: nat) {
    && (forall v | v in pages :: lo <= v && pages[v] in pages' && pages'[pages[v]] == ImagePage(data, offset, v - lo))
    && (forall p | p in pages0 :: p in pages' && pages'[p] == pages0[p])
  }

  /** A load that has reached page `vpn`. */
  ghost predicate LoadedSoFar(flat0: map<nat, Xlat>, pages0: Pages, flat: map<nat, Xlat>, pages': Pages,
                              lo: nat, vpn: nat, perm: Perm, pages: map<nat, nat>, data: seq<Byte>, offset: nat) {
    && Allocated(pages0, lo, vpn, pages)
    && Holds(pages0, pages', lo, pages, data, offset)
    && flat == flat0 + Entries(pages, perm)
  }

  lemma AllocatedOne(pages0: Pages, pages': Pages, lo: nat, vpn: nat, pages: map<nat, nat>, ppn: nat)
    requires Allocated(pages0, lo, vpn, pages) && ppn !in pages' && ppn < PPN_LIMIT
    requires (forall v | v in pages :: pages[v] in pages') && forall p | p in pages0 :: p in pages'
    ensures Allocated(pages0, lo, vpn + 1, pages[vpn := ppn])
  {
  }

  lemma HoldsOne(pages0: Pages, pages': Pages, lo: nat, vpn: nat, pages: map<nat, nat>, data: seq<Byte>, offset: nat, ppn: nat, content: seq<Byte>)
    requires Holds(pages0, pages', lo, pages, data, offset) && lo <= vpn && vpn !in pages && ppn !in pages'
    requires content == ImagePage(data, offset, vpn - lo)
    ensures Holds(pages0, pages'[ppn := content], lo, pages[vpn := ppn], data, offset)
  {
  }

  lemma LoadedOne(flat0: map<nat, Xlat>, pages0: Pages, flat: map<nat, Xlat>, pages': Pages,
                  lo: nat, vpn: nat, perm: Perm, pages: map<nat, nat>, data: seq<Byte>, offset: nat, ppn: nat, content: seq<Byte>)
    requires LoadedSoFar(flat0, pages0, flat, pages', lo, vpn, perm, pages, data, offset)
    requires ppn !in pages' && ppn < PPN_LIMIT && content == ImagePage(data, offset, vpn - lo)
    ensures LoadedSoFar(flat0, pages0, flat[vpn := Xlat(ppn, LeafFlags(perm))], pages'[ppn := content],
                        lo, vpn + 1, perm, pages[vpn := ppn], data, offset)
  {
    AllocatedOne(pages0, pages', lo, vpn, pages, ppn);
    HoldsOne(pages0, pages', lo, vpn, pages, data, offset, ppn, content);
    EntriesAdd(flat0, pages, perm, vpn, ppn);
  }

  /** What a load took: its frames and tables were free, and tables of others are as they were. */
  ghost predicate Took(t0: Tables, free0: set<nat>, own0: set<nat>, t: Tables, free: set<nat>, own: set<nat>, pages: map<nat, nat>) {
    free0 !! t0.Keys && TablesKept(t0, t, own0) && own <= own0 + free0 && free <= free0 && forall v | v in pages :: pages[v] in free0
  }

  lemma TookOne(t0: Tables, free0: set<nat>, own0: set<nat>, t: Tables, free: set<nat>, own: set<nat>, pages: map<nat, nat>,
                t': Tables, free': set<nat>, own': set<nat>, vpn: nat, ppn: nat)
    requires Took(t0, free0, own0, t, free, own, pages)
    requires TablesKept(t, t', own) && own' <= own + free && free' <= free && ppn in free
    ensures Took(t0, free0, own0, t', free', own', pages[vpn := ppn])
  {
  }

  lemma TookConfined(t0: Tables, pg0: Pages, free0: set<nat>, own0: set<nat>, areas: Areas, a: Area, t: Tables, pg: Pages, free: set<nat>, own: set<nat>)
    requires Took(t0, free0, own0, t, free, own, a.pages) && a.start !in areas
    requires forall p | p in pg0 :: p in pg && pg[p] == pg0[p]
    ensures Confined(t0, pg0, free0, own0 + PageFrames(areas), t, pg, free, own + PageFrames(areas[a.start := a]))
  {
    var areas' := areas[a.start := a];
    forall p | p in PageFrames(areas') ensures p in PageFrames(areas) || p in free0 {
      var k, v :| k in areas' && v in areas'[k].pages && p == areas'[k].pages[v];
      if k != a.start { assert k in areas && v in areas[k].pages; }
    }
  }

  /** Map `lo..hi` with `data` starting `offset` bytes into the first page: afterwards every page of the area is
      allocated and together they hold the data with zeros around it. */
  method UserMapWithData(ms: MemorySpace, lo: nat, hi: nat, perm: Perm, data: seq<Byte>, offset: nat)
    requires ms.Valid() && lo < hi <= LOW_VPN && FreeRange(ms.areas, lo, hi)
    requires offset < PAGE_SIZE && |data| + offset <= (hi - lo) * PAGE_SIZE
    requires |ms.mem.free| >= 3 * (hi - lo)
    modifies ms, ms.mem, ms.pt
    ensures ms.Valid() && lo in ms.areas
    ensures ms.View() == Loaded(old(ms.View()), ms.areas[lo])
    ensures ms.areas[lo].start == lo && ms.areas[lo].end == hi && ms.areas[lo].perm == perm && ms.areas[lo].kind == Lazy
    ensures forall v :: v in ms.areas[lo].pages <==> lo <= v < hi
    ensures forall v | lo <= v < hi :: ms.mem.pages[ms.areas[lo].pages[v]] == ImagePage(data, offset, v - lo)
    ensures forall p | p in old(ms.mem.pages) :: p in ms.mem.pages && ms.mem.pages[p] == old(ms.mem.pages)[p]
    ensures ms.ConfinedSince(old(ms.mem.tables), old(ms.mem.pages), old(ms.mem.free), old(ms.Own()))
    ensures ms.Shared() == old(ms.Shared())
  {
    TranslatedOutside(ms.View(), lo, hi);
    FreeKey(ms.areas, lo, hi);
    ghost var s, b := ms.View(), StartOf(ms);
    var pages := MapWithData(ms, lo, hi, perm, data, offset);
    FinishLoad(ms, Area(lo, hi, perm, Lazy, pages, {}), s, b, data, offset);
  }

  /** The state a load starts from. */
  datatype Start = Start(flat: map<nat, Xlat>, pages: Pages, tables: Tables, free: set<nat>, own: set<nat>, shared: set<nat>)

  /** A load that started at `b` has reached page `vpn`. */
  ghost predicate LoadAt(ms: MemorySpace, b: Start, lo: nat, vpn: nat, perm: Perm, pages: map<nat, nat>, data: seq<Byte>, offset: nat)
    reads ms, ms.mem, ms.pt, ms.pt.mem
  {
    && ms.Consistent()
    && LoadedSoFar(b.flat, b.pages, ms.pt.FlatMap(), ms.mem.pages, lo, vpn, perm, pages, data, offset)
    && ms.Shared() == b.shared
    && Took(b.tables, b.free, b.own, ms.mem.tables, ms.mem.free, OwnTables(ms.pt.root, ms.pt.slot), pages)
  }

  ghost function StartOf(ms: MemorySpace): Start
    reads ms, ms.mem, ms.pt, ms.pt.mem
  {
    Start(ms.pt.FlatMap(), ms.mem.pages, ms.mem.tables, ms.mem.free, OwnTables(ms.pt.root, ms.pt.slot), ms.Shared())
  }

  lemma LoadStarts(ms: MemorySpace, lo: nat, perm: Perm, data: seq<Byte>, offset: nat)
    requires ms.Consistent()
    ensures LoadAt(ms, StartOf(ms), lo, lo, perm, map[], data, offset) && Progress(data, offset, 0, 0, offset)
  {
    assert ms.pt.FlatMap() + Entries(map[], perm) == ms.pt.FlatMap();
  }

  /** The copy loop of a load: one fresh frame per page, filled from where the data continues. */
  method MapWithData(ms: MemorySpace, lo: nat, hi: nat, perm: Perm, data: seq<Byte>, offset: nat) returns (pages: map<nat, nat>)
    requires ms.Consistent() && lo <= hi <= LOW_VPN && forall v | v in ms.pt.FlatMap() :: !(lo <= v < hi)
    requires offset < PAGE_SIZE
    requires |ms.mem.free| >= 3 * (hi - lo)
    modifies ms.mem, ms.pt
    ensures LoadAt(ms, old(StartOf(ms)), lo, hi, perm, pages, data, offset)
  {
    hide LoadAt, Progress, ImagePage, MemorySpace.Consistent;
    ghost var b := StartOf(ms);
    LoadStarts(ms, lo, perm, data, offset);
    pages := map[];
    var vpn, start: nat, at := lo, 0, offset;
    while vpn < hi
      invariant lo <= vpn <= hi && |ms.mem.free| >= 3 * (hi - vpn)
      invariant LoadAt(ms, b, lo, vpn, perm, pages, data, offset)
      invariant Progress(data, offset, vpn - lo, start, at)
    {
      var content, next := NextSlice(data, start, at, offset, vpn - lo);
      var ppn := LoadPage(ms, vpn, perm, content, b, lo, pages, data, offset);
      pages := pages[vpn := ppn];
      vpn, start, at := vpn + 1, next, 0;
    }
  }

  /** The part of the data that goes into the next page, and where the data continues after it. */
  method NextSlice(data: seq<Byte>, start: nat, at: nat, ghost offset: nat, ghost i: nat) returns (content: seq<Byte>, next: nat)
    requires offset < PAGE_SIZE && Progress(data, offset, i, start, at)
    ensures content == ImagePage(data, offset, i) && Progress(data, offset, i + 1, next, 0)
  {
    var len := if |data| - start < PAGE_SIZE - at then |data| - start else PAGE_SIZE - at;
    SliceIsImage(data, offset, i, start, at, len);
    content, next := WithSlice(at, data[start..start + len]), start + len;
  }

  /** One page of a load: a fresh frame, mapped and filled. */
  method LoadPage(ms: MemorySpace, vpn: nat, perm: Perm, content: seq<Byte>, ghost b: Start, ghost lo: nat,
                  ghost pages: map<nat, nat>, ghost data: seq<Byte>, ghost offset: nat)
    returns (ppn: nat)
    requires LoadAt(ms, b, lo, vpn, perm, pages, data, offset)
    requires |ms.mem.free| >= 3 && lo <= vpn < LOW_VPN && vpn !in b.flat && content == ImagePage(data, offset, vpn - lo)
    modifies ms.mem, ms.pt
    ensures LoadAt(ms, b, lo, vpn + 1, perm, pages[vpn := ppn], data, offset)
    ensures |ms.mem.free| >= |old(ms.mem.free)| - 3
  {
    NotYetMapped(b.flat, pages, perm, vpn);
    ppn := FillFresh(ms, vpn, perm, content);
    LoadedOne(b.flat, b.pages, old(ms.pt.FlatMap()), old(ms.mem.pages), lo, vpn, perm, pages, data, offset, ppn, content);
    TookOne(b.tables, b.free, b.own, old(ms.mem.tables), old(ms.mem.free), OwnTables(ms.pt.root, old(ms.pt.slot)), pages,
            ms.mem.tables, ms.mem.free, OwnTables(ms.pt.root, ms.pt.slot), vpn, ppn);
  }

  method FillFresh(ms: MemorySpace, vpn: nat, perm: Perm, content: seq<Byte>) returns (ppn: nat)
    requires ms.Consistent() && |ms.mem.free| >= 3 && vpn < LOW_VPN && vpn !in ms.pt.FlatMap() && |content| == PAGE_SIZE
    modifies ms.mem, ms.pt
    ensures ms.Consistent() && |ms.mem.free| >= |old(ms.mem.free)| - 3
    ensures ppn !in old(ms.mem.pages) && ppn < PPN_LIMIT && ms.mem.pages == old(ms.mem.pages)[ppn := content]
    ensures ms.pt.FlatMap() == old(ms.pt.FlatMap())[vpn := Xlat(ppn, LeafFlags(perm))]
    ensures ppn in old(ms.mem.free) && ms.mem.free <= old(ms.mem.free)
    ensures TablesKept(old(ms.mem.tables), ms.mem.tables, OwnTables(ms.pt.root, old(ms.pt.slot)))
    ensures OwnTables(ms.pt.root, ms.pt.slot) <= OwnTables(ms.pt.root, old(ms.pt.slot)) + old(ms.mem.free)
    ensures ms.Shared() == old(ms.Shared())
  {
    ppn := ms.MapFresh(vpn, perm);
    Rewritten(old(ms.mem.pages), ppn, ZeroPage(), content);
    StillLive(ms.areas, old(ms.mem.pages), ppn, content);
    hide TreeOk, FramesOk, FramesLive, Flat, OwnTables;
    ms.mem.WritePage(ppn, content);
  }

  lemma StillLive(areas: Areas, pages: Pages, p: nat, content: seq<Byte>)
    requires FramesLive(areas, pages)
    ensures FramesLive(areas, pages[p := content])
  {
    LiveMore(areas, pages, pages[p := content]);
  }

  /** Insert the loaded area. */
  method FinishLoad(ms: MemorySpace, a: Area, ghost s: Space, ghost b: Start, ghost data: seq<Byte>, ghost offset: nat)
    requires Wf(s) && ms.areas == s.areas && FramesLive(s.areas, b.pages) && b.flat == s.flat && a.start !in s.areas
    requires a.kind == Lazy && a.backed == {} && a.start < a.end <= LOW_VPN && FreeRange(s.areas, a.start, a.end)
    requires LoadAt(ms, b, a.start, a.end, a.perm, a.pages, data, offset)
    modifies ms
    ensures ms.Valid() && ms.areas == s.areas[a.start := a] && ms.View() == Loaded(s, a)
    ensures ms.ConfinedSince(b.tables, b.pages, b.free, b.own + PageFrames(s.areas))
  {
    TookConfined(b.tables, b.pages, b.free, b.own, s.areas, a, ms.mem.tables, ms.mem.pages, ms.mem.free, OwnTables(ms.pt.root, ms.pt.slot));
    LoadDone(s, a, b.pages, ms.pt.FlatMap(), ms.mem.pages, data, offset);
    hide Wf, Entries, LoadedSoFar, Took, Confined, FramesLive, TreeOk, FramesOk, Flat, OwnTables, PageFrames;
    ms.areas := ms.areas[a.start := a];
  }

  lemma LoadDone(s: Space, a: Area, pages0: Pages, flat: map<nat, Xlat>, pages: Pages, data: seq<Byte>, offset: nat)
    requires Wf(s) && FramesLive(s.areas, pages0)
    requires a.kind == Lazy && a.backed == {} && a.start < a.end <= LOW_VPN && FreeRange(s.areas, a.start, a.end)
    requires LoadedSoFar(s.flat, pages0, flat, pages, a.start, a.end, a.perm, a.pages, data, offset)
    ensures Loaded(s, a) == Space(s.areas[a.start := a], flat) && Wf(Loaded(s, a))
    ensures FramesLive(s.areas[a.start := a], pages)
    ensures forall p | p in pages0 :: p in pages && pages[p] == pages0[p]
  {
    assert FreshPages(s.areas, a);
    LoadedWf(s, a);
  }
}
