/** Many address spaces in one physical memory: whatever one of them does, the others translate and read as before. */
module SideBySide {
  import opened Sv39
  import opened PageTree
  import opened PageTables
  import opened AddressSpace
  import opened MemorySpaces

  /** One address space: its page table and its areas. */
  datatype Tenant = Tenant(root: nat, slot: Slots, areas: Areas)

  /** Physical memory, the kernel's tables that every address space shares, and the address spaces in it. */
  datatype World = World(tables: Tables, pages: Pages, free: set<nat>, kernel: set<nat>, tenants: map<nat, Tenant>)

  /** One address space does something, a new one appears, or the page cache changes. */
  datatype Event = Act(i: nat) | Spawn(i: nat) | Cache

  ghost function OwnOf(x: Tenant): set<nat> {
    OwnTables(x.root, x.slot) + PageFrames(x.areas)
  }

  /** What a user program reads in page `v` of a lazy area: its frame, or zeros while it has none. */
  ghost function PageOf(a: Area, pages: Pages, v: nat): seq<Byte> {
    if v in a.pages && a.pages[v] in pages then pages[a.pages[v]] else ZeroPage()
  }

  /** The tree and the pages of `x` stand in memory, and its tables are its own or the kernel's. */
  ghost predicate Lives(w: World, x: Tenant) {
    && TreeOk(w.tables, x.root, x.slot) && FramesLive(x.areas, w.pages)
    && KernelTables(x.slot) <= w.kernel && OwnOf(x) !! w.kernel
  }

  ghost predicate Apart(tenants: map<nat, Tenant>) {
    forall i, j | i in tenants && j in tenants && i != j :: OwnOf(tenants[i]) !! OwnOf(tenants[j])
  }

  ghost predicate Sound(w: World) {
    w.free !! w.tables.Keys && w.free !! w.pages.Keys && w.kernel <= w.tables.Keys
  }

  ghost predicate WorldOk(w: World) {
    Sound(w) && (forall i | i in w.tenants :: Lives(w, w.tenants[i])) && Apart(w.tenants)
  }

  ghost function Before(w: World, e: Event): set<nat> {
    if e.Act? && e.i in w.tenants then OwnOf(w.tenants[e.i]) else {}
  }

  /** The page-cache frames: data pages that no address space owns, mapped into any number of file areas. */
  ghost function CacheOf(w: World): set<nat> {
    set p | p in w.pages && forall i | i in w.tenants :: p !in OwnOf(w.tenants[i])
  }

  /** Cached pages are filled, written by the kernel or through a file area, added from free frames or given back. */
  ghost predicate CacheChanges(w: World, w': World) {
    && w'.tenants == w.tenants && w'.kernel == w.kernel && w'.tables == w.tables && Sound(w')
    && (forall p | p in w.pages && p !in CacheOf(w) :: p in w'.pages && w'.pages[p] == w.pages[p])
    && w'.pages.Keys + w'.free <= w.pages.Keys + w.free
  }

  /** The event `e`: the page cache, or its address space alone, changes. */
  ghost predicate Happens(w: World, w': World, e: Event) {
    if e.Cache? then CacheChanges(w, w') else Moves(w, w', e)
  }

  /** One address space changes, within frames it owned and free ones. */
  ghost predicate Moves(w: World, w': World, e: Event)
    requires !e.Cache?
  {
    && e.i in w'.tenants && w'.tenants == w.tenants[e.i := w'.tenants[e.i]] && w'.kernel == w.kernel
    && (e.Act? <==> e.i in w.tenants)
    && Sound(w') && Lives(w', w'.tenants[e.i])
    && Confined(w.tables, w.pages, w.free, Before(w, e), w'.tables, w'.pages, w'.free, OwnOf(w'.tenants[e.i]))
  }

  /** The same translation of every page number, and the same bytes in every page of every area. */
  ghost predicate ReadsAlike(w: World, w': World, x: Tenant) {
    && SameLeaves(w.tables, w'.tables, x.root) && Flat(w'.tables, x.root) == Flat(w.tables, x.root)
    && forall k, v | k in x.areas :: PageOf(x.areas[k], w'.pages, v) == PageOf(x.areas[k], w.pages, v)
  }

  /** Frames of a tenant are in use, so none of them is free. */
  lemma OwnInUse(w: World, x: Tenant)
    requires Lives(w, x)
    ensures OwnTables(x.root, x.slot) <= w.tables.Keys && PageFrames(x.areas) <= w.pages.Keys
    ensures x.slot.Keys <= OwnOf(x) + w.kernel
  {
    forall p | p in x.slot ensures p in OwnOf(x) + w.kernel {
      assert p in OwnTables(x.root, x.slot) || p in KernelTables(x.slot);
    }
  }

  /** No event touches a table or page of another address space. */
  lemma UntouchedFrames(w: World, w': World, e: Event, j: nat)
    requires WorldOk(w) && !e.Cache? && Moves(w, w', e) && j in w.tenants && e != Act(j)
    ensures var x := w.tenants[j];
            && (forall p | p in x.slot || p == x.root :: p in w.tables && p in w'.tables && w'.tables[p] == w.tables[p])
            && (forall p | p in PageFrames(x.areas) :: p in w.pages && p in w'.pages && w'.pages[p] == w.pages[p])
  {
    var x := w.tenants[j];
    OwnInUse(w, x);
    if e.Act? { assert Lives(w, w.tenants[e.i]); }
    assert OwnOf(x) !! Before(w, e) && w.kernel !! Before(w, e);
  }

  /** Nor does the page cache. */
  lemma CacheUntouched(w: World, w': World, j: nat)
    requires WorldOk(w) && CacheChanges(w, w') && j in w.tenants
    ensures var x := w.tenants[j];
            && (forall p | p in x.slot || p == x.root :: p in w.tables && p in w'.tables && w'.tables[p] == w.tables[p])
            && (forall p | p in PageFrames(x.areas) :: p in w.pages && p in w'.pages && w'.pages[p] == w.pages[p])
  {
    OwnInUse(w, w.tenants[j]);
    forall p | p in PageFrames(w.tenants[j].areas) ensures p !in CacheOf(w) { assert p in OwnOf(w.tenants[j]); }
  }

  lemma PagesAlike(areas: Areas, pages: Pages, pages': Pages)
    requires FramesLive(areas, pages)
    requires forall p | p in PageFrames(areas) :: p in pages' && (p in pages ==> pages'[p] == pages[p])
    ensures FramesLive(areas, pages')
    ensures forall k, v | k in areas :: PageOf(areas[k], pages', v) == PageOf(areas[k], pages, v)
  {
    forall k, v | k in areas && v in areas[k].pages ensures areas[k].pages[v] in PageFrames(areas) {}
  }

  lemma OthersRead(w: World, w': World, e: Event, j: nat)
    requires WorldOk(w) && Happens(w, w', e) && j in w.tenants && e != Act(j)
    ensures Lives(w', w.tenants[j]) && ReadsAlike(w, w', w.tenants[j])
  {
    var x := w.tenants[j];
    if e.Cache? { CacheUntouched(w, w', j); } else { UntouchedFrames(w, w', e, j); }
    TreeFrame(w.tables, w'.tables, x.root, x.slot);
    SameFlat(w.tables, w'.tables, x.root);
    PagesAlike(x.areas, w.pages, w'.pages);
  }

  lemma NewFramesApart(w: World, w': World, e: Event, j: nat)
    requires WorldOk(w) && !e.Cache? && Moves(w, w', e) && j in w.tenants && j != e.i
    ensures OwnOf(w'.tenants[e.i]) !! OwnOf(w.tenants[j])
  {
    OwnInUse(w, w.tenants[j]);
    assert OwnOf(w.tenants[j]) !! w.free;
    assert OwnOf(w.tenants[j]) !! Before(w, e);
  }

  /** Every address space but the one that acts translates and reads as it did. */
  ghost predicate Undisturbed(w: World, w': World, e: Event) {
    forall j | j in w.tenants && e != Act(j) ::
      j in w'.tenants && w'.tenants[j] == w.tenants[j] && ReadsAlike(w, w', w.tenants[j])
  }

  /** One event of any address space: the world stays sound, and the others undisturbed. */
  lemma StepLeavesOthers(w: World, w': World, e: Event)
    requires WorldOk(w) && Happens(w, w', e)
    ensures WorldOk(w') && Undisturbed(w, w', e)
  {
    hide Lives, ReadsAlike, Apart, Confined, Sound, OwnOf, CacheOf;
    ApartKept(w, w', e);
    forall j | j in w.tenants && e != Act(j) ensures Lives(w', w.tenants[j]) && ReadsAlike(w, w', w.tenants[j]) {
      OthersRead(w, w', e, j);
    }
  }

  lemma ApartKept(w: World, w': World, e: Event)
    requires WorldOk(w) && Happens(w, w', e)
    ensures Apart(w'.tenants)
  {
    if !e.Cache? {
      forall j | j in w.tenants && j != e.i ensures OwnOf(w'.tenants[e.i]) !! OwnOf(w.tenants[j]) { NewFramesApart(w, w', e, j); }
    }
    hide OwnOf, Lives, Confined, Sound;
  }

  /** Worlds that follow one another by the events of any address spaces, in any order. */
  ghost predicate Interleaved(ws: seq<World>, es: seq<Event>) {
    |ws| == |es| + 1 && forall k | 0 <= k < |es| :: Happens(ws[k], ws[k + 1], es[k])
  }

  lemma {:induction false} RunOk(ws: seq<World>, es: seq<Event>, k: nat)
    requires Interleaved(ws, es) && WorldOk(ws[0]) && k <= |es|
    ensures WorldOk(ws[k])
  {
    hide WorldOk, Happens, Undisturbed;
    if k > 0 {
      RunOk(ws, es, k - 1);
      HappensAt(ws, es, k - 1);
      StepLeavesOthers(ws[k - 1], ws[k], es[k - 1]);
    }
  }

  lemma HappensAt(ws: seq<World>, es: seq<Event>, k: nat)
    requires Interleaved(ws, es) && k < |es|
    ensures Happens(ws[k], ws[k + 1], es[k])
  {
  }

  /** At every point of a run an address space keeps what it has through an event that is not its own. */
  lemma RunLeavesOthers(ws: seq<World>, es: seq<Event>, k: nat)
    requires Interleaved(ws, es) && WorldOk(ws[0]) && k < |es|
    ensures WorldOk(ws[k + 1]) && Undisturbed(ws[k], ws[k + 1], es[k])
  {
    hide WorldOk, Happens, Undisturbed;
    RunOk(ws, es, k);
    HappensAt(ws, es, k);
    StepLeavesOthers(ws[k], ws[k + 1], es[k]);
  }

  /** `j` has after `w'` what it had in `w`, and translates and reads alike. */
  ghost predicate Same(w: World, w': World, j: nat) {
    j in w.tenants && j in w'.tenants && w'.tenants[j] == w.tenants[j] && ReadsAlike(w, w', w.tenants[j])
  }

  lemma SameTwice(w: World, w1: World, w2: World, e: Event, j: nat)
    requires Same(w, w1, j) && Undisturbed(w1, w2, e) && e != Act(j)
    ensures Same(w, w2, j)
  {
    assert ReadsAlike(w1, w2, w1.tenants[j]);
  }

  lemma SameSelf(w: World, j: nat)
    requires j in w.tenants
    ensures Same(w, w, j)
  {
  }

  /** While only others act, an address space translates and reads as at the start. */
  lemma {:induction false} IdleReadsAlike(ws: seq<World>, es: seq<Event>, j: nat, k: nat)
    requires Interleaved(ws, es) && WorldOk(ws[0]) && j in ws[0].tenants && Act(j) !in es && k <= |es|
    ensures Same(ws[0], ws[k], j)
  {
    hide WorldOk, Undisturbed, Same, Happens;
    if k == 0 {
      SameSelf(ws[0], j);
    } else {
      IdleReadsAlike(ws, es, j, k - 1);
      RunLeavesOthers(ws, es, k - 1);
      SameTwice(ws[0], ws[k - 1], ws[k], es[k - 1], j);
    }
  }

  // ------------------------------------------------- address spaces as tenants

  ghost function TenantOf(ms: MemorySpace): Tenant
    reads ms, ms.pt
  {
    Tenant(ms.pt.root, ms.pt.slot, ms.areas)
  }

  /** The world after the address space `i` has become `ms`. */
  ghost function WorldWith(w: World, i: nat, ms: MemorySpace): World
    reads ms, ms.mem, ms.pt
  {
    World(ms.mem.tables, ms.mem.pages, ms.mem.free, w.kernel, w.tenants[i := TenantOf(ms)])
  }

  /** Every operation of an address space that keeps to its frames and keeps its kernel tables is such an event. */
  lemma OperationHappens(w: World, i: nat, ms: MemorySpace)
    requires WorldOk(w) && i in w.tenants && ms.Consistent()
    requires ms.ConfinedSince(w.tables, w.pages, w.free, OwnOf(w.tenants[i])) && ms.Shared() == KernelTables(w.tenants[i].slot)
    ensures Happens(w, WorldWith(w, i, ms), Act(i))
  {
    var x := w.tenants[i];
    assert Lives(w, x);
    assert w.free !! w.kernel;
    assert ms.Own() !! w.kernel;
  }

  /** And so is the appearance of one that took free frames and links tables of the kernel. */
  lemma SpawnHappens(w: World, i: nat, ms: MemorySpace)
    requires WorldOk(w) && i !in w.tenants && ms.Consistent()
    requires ms.ConfinedSince(w.tables, w.pages, w.free, {}) && ms.Shared() <= w.kernel
    ensures Happens(w, WorldWith(w, i, ms), Spawn(i))
  {
    assert w.free !! w.kernel;
    assert ms.Own() !! w.kernel;
  }

  /** So is a program's write to a page of its own. */
  lemma WriteHappens(w: World, i: nat, k: nat, v: nat, bytes: seq<Byte>)
    requires WorldOk(w) && i in w.tenants && k in w.tenants[i].areas && v in w.tenants[i].areas[k].pages
    ensures var p := w.tenants[i].areas[k].pages[v];
            Happens(w, w.(pages := w.pages[p := bytes]), Act(i)) && PageOf(w.tenants[i].areas[k], w.pages[p := bytes], v) == bytes
  {
    var x := w.tenants[i];
    var p := x.areas[k].pages[v];
    assert Lives(w, x) && p in PageFrames(x.areas) && p in w.pages;
    var w' := w.(pages := w.pages[p := bytes]);
    assert w'.tenants == w.tenants[i := x];
    LiveMore(x.areas, w.pages, w'.pages);
    assert Lives(w', x);
  }

  /** And a write to a cached page, whoever makes it, is a change of the page cache. */
  lemma CacheWriteHappens(w: World, p: nat, bytes: seq<Byte>)
    requires WorldOk(w) && p in CacheOf(w)
    ensures Happens(w, w.(pages := w.pages[p := bytes]), Cache)
  {
  }
}
