/** Physical frames and the kernel's `PageTable`, updated in place. */
module PageTables {
  import opened Sv39
  import opened PageTree

  /** Physical memory behind the frame allocator: frames in use as page tables,
      frames in use as data pages, and free frames. */
  class FrameMemory {
    var tables: Tables
    var pages: map<nat, seq<Byte>>
    var free: set<nat>

    constructor (free: set<nat>)
      ensures tables == map[] && pages == map[] && this.free == free
    {
      tables, pages, this.free := map[], map[], free;
    }

    ghost predicate Valid()
      reads this
    {
      && tables.Keys !! pages.Keys
      && free !! tables.Keys
      && free !! pages.Keys
      && (forall p | p in free :: p < PPN_LIMIT)
      && (forall p | p in pages :: |pages[p]| == PAGE_SIZE && p < PPN_LIMIT)
    }

    /** `Frame::alloc().unwrap()` for a table: some free frame, zeroed. */
    method AllocTable() returns (ppn: nat)
      requires Valid() && free != {}
      modifies this
      ensures Valid()
      ensures ppn in old(free) && free == old(free) - {ppn}
      ensures tables == old(tables)[ppn := EmptyTable()] && pages == old(pages)
      ensures |free| == |old(free)| - 1
    {
      ppn :| ppn in free;
      free := free - {ppn};
      tables := tables[ppn := EmptyTable()];
    }

    /** `Frame::alloc().unwrap()` for data: some free frame, zeroed. */
    method AllocPage() returns (ppn: nat)
      requires Valid() && free != {}
      modifies this
      ensures Valid()
      ensures ppn in old(free) && free == old(free) - {ppn}
      ensures pages == old(pages)[ppn := ZeroPage()] && tables == old(tables)
      ensures |free| == |old(free)| - 1
    {
      ppn :| ppn in free;
      free := free - {ppn};
      pages := pages[ppn := ZeroPage()];
    }

    method FreeTables(ppns: set<nat>)
      requires Valid() && ppns <= tables.Keys
      requires forall p | p in ppns :: p < PPN_LIMIT
      modifies this
      ensures Valid()
      ensures tables == old(tables) - ppns && free == old(free) + ppns && pages == old(pages)
    {
      tables := tables - ppns;
      free := free + ppns;
    }

    method FreePages(ppns: set<nat>)
      requires Valid() && ppns <= pages.Keys
      modifies this
      ensures Valid()
      ensures pages == old(pages) - ppns && free == old(free) + ppns && tables == old(tables)
    {
      pages := pages - ppns;
      free := free + ppns;
    }

    method StoreEntry(p: nat, k: nat, e: nat)
      requires Valid() && p in tables && k < |tables[p]|
      modifies this`tables
      ensures Valid() && tables == Stored(old(tables), p, k, e)
    {
      tables := Stored(tables, p, k, e);
    }

    method WriteTable(p: nat, row: seq<nat>)
      requires Valid() && p in tables && |row| == PTE_PER_PAGE
      modifies this`tables
      ensures Valid() && tables == old(tables)[p := row]
    {
      tables := tables[p := row];
    }

    method WritePage(p: nat, bytes: seq<Byte>)
      requires Valid() && p in pages && |bytes| == PAGE_SIZE
      modifies this`pages
      ensures Valid() && pages == old(pages)[p := bytes]
    {
      pages := pages[p := bytes];
    }
  }

  function ZeroPage(): (s: seq<Byte>)
    ensures |s| == PAGE_SIZE
    ensures forall i | 0 <= i < |s| :: s[i] == 0
  {
    seq(PAGE_SIZE, _ => 0)
  }

  class PageTable {
    const mem: FrameMemory
    const root: nat
    /** Tables below the root that this page table owns. */
    var frames: seq<nat>
    ghost var slot: Slots
    /** Root lines this table links tables under itself: the user half, or all of them for the kernel. */
    ghost const ownLines: nat

    ghost predicate Valid()
      reads this, mem
    {
      && mem.Valid()
      && TreeOk(mem.tables, root, slot)
      && FramesOk(slot, frames, ownLines)
    }

    ghost function Translate(vpn: nat): nat
      reads this, mem
    {
      Leaf(mem.tables, root, vpn)
    }

    ghost function FlatMap(): map<nat, Xlat>
      reads this, mem
    {
      Flat(mem.tables, root)
    }

    constructor (mem: FrameMemory, ghost ownLines: nat)
      requires mem.Valid() && mem.free != {}
      modifies mem
      ensures Valid() && this.mem == mem && this.ownLines == ownLines
      ensures frames == [] && slot == map[]
      ensures root in old(mem.free) && mem.free == old(mem.free) - {root}
      ensures mem.pages == old(mem.pages)
      ensures mem.tables == old(mem.tables)[root := EmptyTable()]
      ensures |mem.free| == |old(mem.free)| - 1
      ensures FlatMap() == map[]
    {
      var r := mem.AllocTable();
      this.mem := mem;
      this.ownLines := ownLines;
      root := r;
      frames := [];
      slot := map[];
    }

    /** What `Grown` says of the current state against an earlier one. */
    ghost predicate GrownFrom(t: Tables, s: Slots, free: set<nat>, line: nat)
      reads this, mem
    {
      Grown(t, s, free, mem.tables, slot, mem.free, root, line)
    }

    /** Walk to the table that holds the leaf of `vpn`, linking empty tables where the
        walk breaks off. No translation changes, for any page number. */
    method FindPteCreate(vpn: nat) returns (table: nat)
      requires Valid() && I0(vpn) < ownLines
      requires PteValid(Translate(vpn)) || |mem.free| >= 2
      modifies mem, this
      ensures Valid() && LeafTable(mem.tables, root, vpn, table)
      ensures SameLeaves(old(mem.tables), mem.tables, root)
      ensures GrownFrom(old(mem.tables), old(slot), old(mem.free), I0(vpn))
      ensures mem.pages == old(mem.pages)
      ensures |mem.free| >= |old(mem.free)| - 2
      ensures PteValid(old(Translate(vpn))) ==> mem.free == old(mem.free) && slot == old(slot)
    {
      var a := Indexes(vpn);
      var idxs := a[..];
      var ppn := root;
      table := root;
      var i := 0;
      while i < 3
        invariant 0 <= i <= 2
        invariant Valid() && IsTable(mem.tables, ppn) && OnPath(mem.tables, root, vpn, i, ppn)
        invariant SameLeaves(old(mem.tables), mem.tables, root)
        invariant GrownFrom(old(mem.tables), old(slot), old(mem.free), I0(vpn))
        invariant mem.pages == old(mem.pages)
        invariant |mem.free| >= |old(mem.free)| - i
        invariant PteValid(old(Translate(vpn))) ==> mem.free == old(mem.free) && slot == old(slot)
        decreases 3 - i
      {
        if i == 2 {
          table := ppn;
          break;
        }
        ghost var t, s, f := mem.tables, slot, mem.free;
        ppn := Step(vpn, i, idxs[i], ppn);
        GrownTransitive(old(mem.tables), old(slot), old(mem.free), t, s, f, mem.tables, slot, mem.free, root, I0(vpn));
        i := i + 1;
      }
    }

    /** One step of the walk of `vpn`, from the table `ppn` it stands at to the next one. */
    method Step(vpn: nat, i: nat, idx: nat, ppn: nat) returns (next: nat)
      requires Valid() && I0(vpn) < ownLines
      requires i < 2 && IsTable(mem.tables, ppn) && OnPath(mem.tables, root, vpn, i, ppn)
      requires idx == if i == 0 then I0(vpn) else I1(vpn)
      requires PteValid(Translate(vpn)) || mem.free != {}
      modifies mem, this
      ensures Valid() && IsTable(mem.tables, next) && OnPath(mem.tables, root, vpn, i + 1, next)
      ensures SameLeaves(old(mem.tables), mem.tables, root)
      ensures GrownFrom(old(mem.tables), old(slot), old(mem.free), I0(vpn))
      ensures mem.pages == old(mem.pages) && |mem.free| >= |old(mem.free)| - 1
      ensures PteValid(old(Translate(vpn))) ==> mem.free == old(mem.free) && slot == old(slot)
    {
      hide FramesOk, Grown, SameLeaves;
      GrownNot(mem.tables, slot, mem.free, root, I0(vpn));
      var pte := mem.tables[ppn][idx];
      if !PteValid(pte) {
        BrokenWalk(mem.tables, root, slot, vpn, i, ppn);
        if i == 0 {
          pte := LinkMidTable(vpn);
        } else {
          pte := LinkLowTable(vpn, ppn);
        }
      }
      MidReached(mem.tables, root, slot, I0(vpn));
      if i == 1 {
        LowReached(mem.tables, root, slot, I0(vpn), ppn, I1(vpn));
      }
      next := PtePpn(pte);
    }

    /** Allocate a table and link it under the root line of `vpn`. */
    method LinkMidTable(vpn: nat) returns (pte: nat)
      requires Valid() && I0(vpn) < ownLines && mem.free != {}
      requires !PteValid(mem.tables[root][I0(vpn)])
      modifies mem, this
      ensures Valid() && PteValid(pte) && mem.tables[root][I0(vpn)] == pte
      ensures SameLeaves(old(mem.tables), mem.tables, root)
      ensures GrownFrom(old(mem.tables), old(slot), old(mem.free), I0(vpn))
      ensures mem.pages == old(mem.pages) && |mem.free| == |old(mem.free)| - 1
    {
      ghost var t := mem.tables;
      var frame := mem.AllocTable();
      PteRoundTrip(frame, PTE_V);
      pte := PteNew(frame, PTE_V);
      LinkMidOk(t, root, slot, I0(vpn), frame);
      GrownMid(t, root, slot, I0(vpn), frame, old(mem.free));
      mem.StoreEntry(root, I0(vpn), pte);
      assert mem.tables == LinkMid(t, root, I0(vpn), frame);
      AddFrame(frame, Mid(I0(vpn)));
    }

    /** Allocate a table and link it under the middle table `ppn` of `vpn`. */
    method LinkLowTable(vpn: nat, ppn: nat) returns (pte: nat)
      requires Valid() && I0(vpn) < ownLines && mem.free != {}
      requires Reaches(mem.tables, root, Mid(I0(vpn)), ppn) && IsTable(mem.tables, ppn)
      requires !PteValid(mem.tables[ppn][I1(vpn)])
      modifies mem, this
      ensures Valid() && PteValid(pte)
      ensures mem.tables[root] == old(mem.tables[root]) && IsTable(mem.tables, ppn) && mem.tables[ppn][I1(vpn)] == pte
      ensures SameLeaves(old(mem.tables), mem.tables, root)
      ensures GrownFrom(old(mem.tables), old(slot), old(mem.free), I0(vpn))
      ensures mem.pages == old(mem.pages) && |mem.free| == |old(mem.free)| - 1
    {
      ghost var t := mem.tables;
      assert HasSlot(slot, ppn, Mid(I0(vpn)));
      var frame := mem.AllocTable();
      PteRoundTrip(frame, PTE_V);
      pte := PteNew(frame, PTE_V);
      LinkLowOk(t, root, slot, I0(vpn), I1(vpn), frame);
      GrownLow(t, root, slot, I0(vpn), I1(vpn), ppn, frame, old(mem.free));
      mem.StoreEntry(ppn, I1(vpn), pte);
      assert mem.tables == LinkLow(t, ppn, I1(vpn), frame);
      AddFrame(frame, Low(I0(vpn), I1(vpn)));
    }

    method AddFrame(frame: nat, ghost at: Slot)
      requires FramesOk(slot, frames, ownLines) && frame !in slot && at.line < ownLines
      modifies this
      ensures frames == old(frames) + [frame] && slot == old(slot)[frame := at]
      ensures FramesOk(slot, frames, ownLines)
    {
      frames := frames + [frame];
      slot := slot[frame := at];
      assert frames[|frames| - 1] == frame;
      assert forall p | p in old(frames) :: p in frames;
    }

    /** Map one page, over what was there. The translation of every other page number stays. A page that
        translates already stops a debug build of the kernel; a release build goes on as here. */
    method Map(vpn: nat, ppn: nat, perm: Perm)
      requires Valid() && vpn < VPN_LIMIT && I0(vpn) < ownLines && (PteValid(Translate(vpn)) || |mem.free| >= 2)
      modifies mem, this
      ensures Valid()
      ensures Translate(vpn) == PteNew(ppn, LeafFlags(perm))
      ensures SameLeavesBut(old(mem.tables), mem.tables, root, vpn)
      ensures GrownFrom(old(mem.tables), old(slot), old(mem.free), I0(vpn))
      ensures mem.pages == old(mem.pages)
      ensures |mem.free| >= |old(mem.free)| - 2
      ensures vpn < LOW_VPN && ppn < PPN_LIMIT ==> FlatMap() == old(FlatMap())[vpn := Xlat(ppn, LeafFlags(perm))]
    {
      var table := FindPteCreate(vpn);
      StoreAt(vpn, table, PteNew(ppn, LeafFlags(perm)), old(mem.tables), old(slot), old(mem.free));
      if vpn < LOW_VPN && ppn < PPN_LIMIT {
        FlatAfterMap(old(mem.tables), mem.tables, root, vpn, ppn, perm);
      }
    }

    /** Unmap one page. The translation of every other page number stays, and a page that translates needs no
        frame. A page that does not stops a debug build of the kernel; a release build links the tables to it. */
    method Unmap(vpn: nat)
      requires Valid() && vpn < VPN_LIMIT && I0(vpn) < ownLines && (PteValid(Translate(vpn)) || |mem.free| >= 2)
      modifies mem, this
      ensures Valid()
      ensures Translate(vpn) == 0
      ensures SameLeavesBut(old(mem.tables), mem.tables, root, vpn)
      ensures GrownFrom(old(mem.tables), old(slot), old(mem.free), I0(vpn))
      ensures mem.pages == old(mem.pages) && |mem.free| >= |old(mem.free)| - 2
      ensures PteValid(old(Translate(vpn))) ==> mem.free == old(mem.free) && slot == old(slot)
      ensures FlatMap() == old(FlatMap()) - {vpn}
    {
      var table := FindPteCreate(vpn);
      StoreAt(vpn, table, 0, old(mem.tables), old(slot), old(mem.free));
      FlatAfterUnmap(old(mem.tables), mem.tables, root, vpn);
    }

    /** Store the leaf entry of `vpn` into the table a walk found. */
    method StoreAt(vpn: nat, table: nat, e: nat, ghost t: Tables, ghost s: Slots, ghost free: set<nat>)
      requires Valid() && vpn < VPN_LIMIT && LeafTable(mem.tables, root, vpn, table)
      requires GrownFrom(t, s, free, I0(vpn)) && free !! t.Keys && s.Keys <= t.Keys
      modifies mem`tables
      ensures Valid() && Translate(vpn) == e
      ensures SameLeavesBut(old(mem.tables), mem.tables, root, vpn)
      ensures GrownFrom(t, s, free, I0(vpn))
    {
      StoreLeaf(mem.tables, root, slot, vpn, table, e);
      mem.StoreEntry(table, I2(vpn), e);
    }

    /** Free the tables below the root, all but the first one ever linked, and zero the user half
        of the root: nothing in the user half translates, and the rest translates as before. */
    method Clear()
      requires Valid() && ownLines == USER_LINES
      modifies mem, this
      ensures Valid()
      ensures frames == if |old(frames)| == 0 then [] else [old(frames)[0]]
      ensures FlatMap() == map[]
      ensures forall v: nat | I0(v) >= USER_LINES :: Translate(v) == old(Translate(v))
      ensures forall p | p in old(mem.tables) && p !in OwnTables(root, old(slot)) ::
                p in mem.tables && mem.tables[p] == old(mem.tables)[p]
      ensures OwnTables(root, slot) <= OwnTables(root, old(slot)) && KernelTables(slot) == KernelTables(old(slot))
      ensures mem.free <= old(mem.free) + OwnTables(root, old(slot))
      ensures mem.pages == old(mem.pages)
    {
      hide OwnTables, KernelTables, TreeOk, FramesOk, Leaf, Flat;
      var freed := set k | 1 <= k < |frames| :: frames[k];
      FreedOwn(root, slot, frames, freed);
      ClearsUser(mem.tables, root, slot, frames, freed);
      if |frames| > 1 {
        frames := frames[..1];
      }
      mem.WriteTable(root, EmptyTable()[..USER_LINES] + mem.tables[root][USER_LINES..]);
      mem.FreeTables(freed);
      slot := slot - freed;
      assert mem.tables == Cleared(old(mem.tables), root, freed);
    }

    /** Copy the kernel's root lines. The kernel half translates as the kernel's does, the rest as before. */
    method MapKernelAreas(kernel: PageTable)
      requires Valid() && kernel.Valid() && kernel != this && kernel.mem == mem
      requires kernel.root != root && root !in kernel.slot && kernel.root !in slot && slot.Keys !! kernel.slot.Keys
      requires ownLines <= 508
      modifies mem`tables, this`slot
      ensures Valid() && kernel.Valid()
      ensures forall v: nat :: Translate(v) == old(if KernelLine(I0(v)) then kernel.Translate(v) else Translate(v))
      ensures SameLeaves(old(mem.tables), mem.tables, kernel.root)
      ensures forall p | p in old(mem.tables) && p != root :: p in mem.tables && mem.tables[p] == old(mem.tables)[p]
      ensures mem.tables.Keys == old(mem.tables).Keys
      ensures slot == SharedSlots(old(slot), kernel.slot)
    {
      ghost var t := mem.tables;
      CopyKernelLines(kernel.root);
      SharedOk(t, root, slot, kernel.root, kernel.slot, mem.tables);
      TreeFrame(t, mem.tables, kernel.root, kernel.slot);
      FramesShared(slot, kernel.slot, frames, ownLines);
      slot := SharedSlots(slot, kernel.slot);
    }

    method CopyKernelLines(kroot: nat)
      requires mem.Valid() && IsTable(mem.tables, root) && IsTable(mem.tables, kroot) && kroot != root
      modifies mem`tables
      ensures mem.Valid() && SharesKernelLines(old(mem.tables), root, kroot, mem.tables)
    {
      ghost var t := mem.tables;
      var lines: seq<nat> := [508, 510, 511];
      var k := 0;
      while k < |lines|
        invariant 0 <= k <= |lines|
        invariant mem.Valid() && mem.tables.Keys == t.Keys && IsTable(mem.tables, root)
        invariant forall p | p in t && p != root :: mem.tables[p] == t[p]
        invariant forall i | 0 <= i < PTE_PER_PAGE ::
                    mem.tables[root][i] == if i in lines[..k] then t[kroot][i] else t[root][i]
      {
        mem.StoreEntry(root, lines[k], mem.tables[kroot][lines[k]]);
        k := k + 1;
      }
      assert lines[..k] == lines;
      assert forall i: nat :: i in lines <==> KernelLine(i);
    }
  }
}
