/** The first user stack: strings, pointer vectors and argc, pushed downwards page by page into an address space. */
module InitStacks {
  import opened Common
  import opened Sv39
  import opened PageTree
  import opened PageTables
  import opened AddressSpace
  import opened MemorySpaces
  import opened ProcessMemory

  const PTR_SIZE := 8
  const U64 := 0x1_0000_0000_0000_0000
  const AT_RANDOM := 25
  /** Read, write and user. */
  const USTACK_PERM: Perm := 22

  // ---------------------------------------------------------------- words

  /** The low `n` bytes of a number, lowest first. */
  function Le(w: nat, n: nat): (r: seq<Byte>)
    ensures |r| == n
  {
    if n == 0 then [] else [w % 0x100] + Le(w / 0x100, n - 1)
  }

  function LeWord(w: nat): (r: seq<Byte>)
    ensures |r| == PTR_SIZE
  {
    Le(w, PTR_SIZE)
  }

  function Value(bytes: seq<Byte>): nat {
    if bytes == [] then 0 else bytes[0] as int + 0x100 * Value(bytes[1..])
  }

  function Power(n: nat): nat { if n == 0 then 1 else 0x100 * Power(n - 1) }

  lemma {:induction false} LeValue(w: nat, n: nat)
    requires w < Power(n)
    ensures Value(Le(w, n)) == w
  {
    if n > 0 {
      LeValue(w / 0x100, n - 1);
      assert Le(w, n)[1..] == Le(w / 0x100, n - 1);
    }
  }

  /** A 64-bit word reads back as it was stored. */
  lemma WordReadsBack(w: nat)
    requires w < U64
    ensures Value(LeWord(w)) == w
  {
    assert Power(4) == 0x1_0000_0000;
    assert Power(8) == U64;
    LeValue(w, 8);
  }

  function Words(ws: seq<nat>): (r: seq<Byte>)
    ensures |r| == PTR_SIZE * |ws|
  {
    if ws == [] then [] else LeWord(ws[0]) + Words(ws[1..])
  }

  // ---------------------------------------------------------------- contents

  /** The stack from `sp` up holds `bytes`; at `addr` it holds `xs`. */
  ghost predicate HoldsAt(sp: nat, bytes: seq<Byte>, addr: nat, xs: seq<Byte>) {
    sp <= addr && addr + |xs| <= sp + |bytes| && bytes[addr - sp..addr - sp + |xs|] == xs
  }

  /** What is on the stack stays where it is when more is pushed. */
  lemma HoldsOn(sp: nat, bytes: seq<Byte>, addr: nat, xs: seq<Byte>, more: seq<Byte>)
    requires HoldsAt(sp, bytes, addr, xs) && |more| <= sp
    ensures HoldsAt(sp - |more|, more + bytes, addr, xs)
  {
    var lo := addr - sp;
    assert (more + bytes)[lo + |more|..lo + |more| + |xs|] == bytes[lo..lo + |xs|];
  }

  /** The bytes of a string vector, each string closed by a zero and found at its address. */
  ghost predicate Strings(sp: nat, bytes: seq<Byte>, addrs: seq<nat>, strs: seq<seq<Byte>>) {
    |addrs| == |strs| && forall i | 0 <= i < |strs| :: HoldsAt(sp, bytes, addrs[i], strs[i] + [0])
  }

  lemma StringsOn(sp: nat, bytes: seq<Byte>, addrs: seq<nat>, strs: seq<seq<Byte>>, more: seq<Byte>)
    requires Strings(sp, bytes, addrs, strs) && |more| <= sp
    ensures Strings(sp - |more|, more + bytes, addrs, strs)
  {
    forall i | 0 <= i < |strs| ensures HoldsAt(sp - |more|, more + bytes, addrs[i], strs[i] + [0]) {
      HoldsOn(sp, bytes, addrs[i], strs[i] + [0], more);
    }
  }

  function StrsLen(strs: seq<seq<Byte>>): nat {
    if strs == [] then 0 else StrsLen(strs[..|strs| - 1]) + |strs[|strs| - 1]| + 1
  }

  // ---------------------------------------------------------------- the writer

  /** Every byte from `sp` to the top of the stack is in the page at its own address. */
  ghost predicate InPlace(pages: Pages, sp: nat, bytes: seq<Byte>) {
    forall a | sp <= a < sp + |bytes| ::
      a / PAGE_SIZE in pages && |pages[a / PAGE_SIZE]| == PAGE_SIZE && pages[a / PAGE_SIZE][a % PAGE_SIZE] == bytes[a - sp]
  }

  function Poked(page: seq<Byte>, at: nat, xs: seq<Byte>): (r: seq<Byte>)
    requires |page| == PAGE_SIZE && at + |xs| <= PAGE_SIZE
    ensures |r| == PAGE_SIZE
  {
    page[..at] + xs + page[at + |xs|..]
  }

  /** Bytes written just below `sp`, inside one page, are in place. */
  lemma PokeInPlace(pages: Pages, sp: nat, bytes: seq<Byte>, k: nat, at: nat, xs: seq<Byte>)
    requires InPlace(pages, sp, bytes) && k in pages && |pages[k]| == PAGE_SIZE && at + |xs| <= PAGE_SIZE
    requires sp == k * PAGE_SIZE + at + |xs| && |xs| > 0
    ensures InPlace(pages[k := Poked(pages[k], at, xs)], sp - |xs|, xs + bytes)
  {
    var pages' := pages[k := Poked(pages[k], at, xs)];
    forall a | sp - |xs| <= a < sp + |bytes|
      ensures a / PAGE_SIZE in pages' && |pages'[a / PAGE_SIZE]| == PAGE_SIZE &&
              pages'[a / PAGE_SIZE][a % PAGE_SIZE] == (xs + bytes)[a - (sp - |xs|)]
    {
      if a < sp {
        assert a / PAGE_SIZE == k && a % PAGE_SIZE == a - k * PAGE_SIZE;
      } else {
        assert a / PAGE_SIZE == k ==> a % PAGE_SIZE >= at + |xs|;
      }
    }
  }

  /** `pages` are what the frames of the area at `k` hold, by page number. */
  ghost predicate Mirrors(areas: Areas, k: nat, frames: Pages, pages: Pages) {
    k in areas && forall v | v in pages :: v in areas[k].pages && areas[k].pages[v] in frames && frames[areas[k].pages[v]] == pages[v]
  }

  /** Allocating a page leaves the mirrored ones. */
  lemma FaultMirrors(s: Space, k: nat, v: nat, ppn: nat, frames: Pages, pages: Pages)
    requires Mirrors(s.areas, k, frames, pages) && v !in s.areas[k].pages && ppn !in frames
    ensures Mirrors(Fault(s, k, v, ppn).areas, k, frames[ppn := ZeroPage()], pages)
  {
  }

  /** A page of the area may be added. */
  lemma MirrorsMore(areas: Areas, k: nat, frames: Pages, pages: Pages, v: nat)
    requires Mirrors(areas, k, frames, pages) && v in areas[k].pages && areas[k].pages[v] in frames
    ensures Mirrors(areas, k, frames, pages[v := frames[areas[k].pages[v]]])
  {
  }

  /** A write to the frame of page `v` changes that page alone. */
  lemma WriteMirrors(areas: Areas, k: nat, v: nat, frames: Pages, pages: Pages, page: seq<Byte>)
    requires Private(areas) && Mirrors(areas, k, frames, pages) && v in pages
    ensures Mirrors(areas, k, frames[areas[k].pages[v] := page], pages[v := page])
  {
    forall u | u in areas[k].pages && areas[k].pages[u] == areas[k].pages[v] ensures u == v {}
  }

  lemma MorePages(pages: Pages, v: nat, page: seq<Byte>, sp: nat, bytes: seq<Byte>)
    requires InPlace(pages, sp, bytes) && (v in pages ==> page == pages[v])
    ensures InPlace(pages[v := page], sp, bytes)
  {
  }

  lemma OwnPoke(t: Tables, pg: Pages, f: set<nat>, o: set<nat>, t': Tables, pg': Pages, f': set<nat>, o': set<nat>, p: nat, bytes: seq<Byte>)
    requires Confined(t, pg, f, o, t', pg', f', o') && p in o' && f !! pg.Keys
    ensures Confined(t, pg, f, o, t', pg'[p := bytes], f', o')
  {
  }

  /** `s'` differs from `s` only in the pages of the area at `k`: it may have more, with their translations. */
  ghost predicate Grew(s: Space, s': Space, k: nat) {
    && k in s.areas && k in s'.areas && s'.areas == s.areas[k := s'.areas[k]] && s'.areas[k] == s.areas[k].(pages := s'.areas[k].pages)
    && (forall v | v in s.areas[k].pages :: v in s'.areas[k].pages && s'.areas[k].pages[v] == s.areas[k].pages[v])
    && (forall v | v in s.flat && !(s.areas[k].start <= v < s.areas[k].end) :: v in s'.flat && s'.flat[v] == s.flat[v])
    && (forall v | v in s'.flat && !(s.areas[k].start <= v < s.areas[k].end) :: v in s.flat)
  }

  lemma FaultGrows(s: Space, k: nat, v: nat, ppn: nat)
    requires k in s.areas && s.areas[k].start <= v < s.areas[k].end && v !in s.areas[k].pages
    ensures Grew(s, Fault(s, k, v, ppn), k)
  {
  }

  lemma GrewTwice(s: Space, s1: Space, s2: Space, k: nat)
    requires Grew(s, s1, k) && Grew(s1, s2, k)
    ensures Grew(s, s2, k)
  {
  }

  lemma GrewNot(s: Space, k: nat)
    requires k in s.areas
    ensures Grew(s, s, k)
  {
  }

  /** Address space and memory when the writing begins. */
  datatype Begun = Begun(space: Space, tables: Tables, pages: Pages, free: set<nat>, own: set<nat>, shared: set<nat>)

  /** What was confined to some frames up to the beginning is confined to them up to now. */
  ghost predicate KeepsConfined(ms: MemorySpace, b: Begun)
    reads ms, ms.mem, ms.pt
  {
    forall t, pg, f, o | Confined(t, pg, f, o, b.tables, b.pages, b.free, b.own) && f !! t.Keys && f !! pg.Keys ::
      ms.ConfinedSince(t, pg, f, o)
  }

  /** What differed from the beginning only in pages of the area at `k` does so from now. */
  ghost predicate KeepsGrowing(now: Space, k: nat, b: Begun) {
    forall s | Grew(s, b.space, k) :: Grew(s, now, k)
  }

  /** Since the beginning the address space has only added pages to the area at `k`, and kept to its own and free frames. */
  ghost predicate Since(ms: MemorySpace, k: nat, b: Begun)
    reads ms, ms.mem, ms.pt, ms.pt.mem
  {
    && ms.Valid() && k in ms.areas && ms.areas[k].kind == Lazy
    && KeepsConfined(ms, b) && KeepsGrowing(ms.View(), k, b) && ms.Shared() == b.shared
  }

  lemma SinceStarts(ms: MemorySpace, k: nat)
    requires ms.Valid() && k in ms.areas && ms.areas[k].kind == Lazy
    ensures Since(ms, k, Begun(ms.View(), ms.mem.tables, ms.mem.pages, ms.mem.free, ms.Own(), ms.Shared()))
  {
  }

  /** A confined step later. */
  lemma ConfinedLater(ms: MemorySpace, b: Begun, t1: Tables, pg1: Pages, f1: set<nat>, o1: set<nat>)
    requires forall t, pg, f, o | Confined(t, pg, f, o, b.tables, b.pages, b.free, b.own) && f !! t.Keys && f !! pg.Keys ::
               Confined(t, pg, f, o, t1, pg1, f1, o1)
    requires ms.ConfinedSince(t1, pg1, f1, o1)
    ensures KeepsConfined(ms, b)
  {
    forall t, pg, f, o | Confined(t, pg, f, o, b.tables, b.pages, b.free, b.own) && f !! t.Keys && f !! pg.Keys
      ensures ms.ConfinedSince(t, pg, f, o)
    {
      ConfinedTransitive(t, pg, f, o, t1, pg1, f1, o1, ms.mem.tables, ms.mem.pages, ms.mem.free, ms.Own());
    }
  }

  lemma GrewLater(s1: Space, s2: Space, k: nat, b: Begun)
    requires KeepsGrowing(s1, k, b) && Grew(s1, s2, k)
    ensures KeepsGrowing(s2, k, b)
  {
    forall s | Grew(s, b.space, k) ensures Grew(s, s2, k) { GrewTwice(s, s1, s2, k); }
  }

  class StackWriter {
    const ms: MemorySpace
    /** The first page of the stack's area. */
    const k: nat
    /** The lowest page there are frames for, and the page above the stack. */
    ghost const low: nat
    const high: nat
    /** The page the stack pointer is in. */
    var cur: Option<nat>
    var sp: nat
    ghost var bytes: seq<Byte>
    /** What the pages touched so far hold. */
    ghost var pages: Pages
    ghost const begun: Begun

    constructor (ms: MemorySpace, k: nat, high: nat, ghost low: nat)
      requires ms.Valid() && k in ms.areas && ms.areas[k].kind == Lazy && k <= low < high == ms.areas[k].end
      requires |ms.mem.free| >= 3 * (high - low)
      ensures Valid() && this.ms == ms && this.k == k && this.low == low && this.high == high && sp == high * PAGE_SIZE && bytes == []
      ensures begun == Begun(ms.View(), ms.mem.tables, ms.mem.pages, ms.mem.free, ms.Own(), ms.Shared())
    {
      SinceStarts(ms, k);
      PageTop(high);
      this.ms, this.k, this.low, this.high := ms, k, low, high;
      cur := None;
      sp := high * PAGE_SIZE;
      bytes := [];
      pages := map[];
      begun := Begun(ms.View(), ms.mem.tables, ms.mem.pages, ms.mem.free, ms.Own(), ms.Shared());
    }

    /** The pages are those of the address space, and there are frames for every page below the stack pointer's. */
    ghost predicate Backed()
      reads this, ms, ms.mem, ms.pt, ms.pt.mem
    {
      && Since(ms, k, begun) && k <= low < high <= ms.areas[k].end && low * PAGE_SIZE <= sp
      && |ms.mem.free| >= 3 * (sp / PAGE_SIZE - low) && Mirrors(ms.areas, k, ms.mem.pages, pages)
    }

    /** The current page is the one at the stack pointer, once something is pushed into it. */
    ghost predicate Valid()
      reads this, ms, ms.mem, ms.pt, ms.pt.mem
    {
      && Backed() && sp + |bytes| == high * PAGE_SIZE && InPlace(pages, sp, bytes)
      && (sp % PAGE_SIZE != 0 ==> cur == Some(sp / PAGE_SIZE)) && (cur.Some? ==> cur.value in pages)
    }

    /** Room for `n` more bytes. */
    ghost predicate Room(n: nat)
      reads this
    {
      low * PAGE_SIZE + n <= sp
    }

    /** Allocate a page of the stack if it is not. */
    method Touch(vpn: nat)
      requires Since(ms, k, begun) && ms.areas[k].start <= vpn < ms.areas[k].end && |ms.mem.free| >= 3
      requires InPlace(pages, sp, bytes) && Mirrors(ms.areas, k, ms.mem.pages, pages)
      modifies this`pages, ms, ms.mem, ms.pt
      ensures Since(ms, k, begun) && ms.areas[k].end == old(ms.areas[k].end) && vpn in pages
      ensures InPlace(pages, sp, bytes) && Mirrors(ms.areas, k, ms.mem.pages, pages) && |ms.mem.free| >= |old(ms.mem.free)| - 3
    {
      hide InPlace, Confined, Grew, Wf, FramesLive, Mirrors, Fault, AddressSpace.Enabled, OwnTables, KernelTables,
           PageFrames, PageTable.Valid, PageTable.FlatMap;
      ghost var s, frames := ms.View(), ms.mem.pages;
      SpaceLive(ms);
      var ppn := ms.EnsureAllocated(k, vpn);
      ConfinedLater(ms, begun, old(ms.mem.tables), old(ms.mem.pages), old(ms.mem.free), old(ms.Own()));
      if vpn !in s.areas[k].pages {
        FaultMirrors(s, k, vpn, ppn, frames, pages);
        FaultGrows(s, k, vpn, ppn);
        GrewLater(s, ms.View(), k, begun);
        FaultShape(s, k, vpn, ppn);
      }
      PageLive(ms, k, vpn);
      MirrorsMore(ms.areas, k, ms.mem.pages, pages, vpn);
      if vpn in pages { MirrorSame(ms.areas, k, ms.mem.pages, pages, vpn); }
      MorePages(pages, vpn, ms.mem.pages[ppn], sp, bytes);
      pages := pages[vpn := ms.mem.pages[ppn]];
    }

    /** Lower the stack pointer; at the top of a page, go to the one below. */
    method SpDown(len: nat)
      requires Valid() && 0 < len <= PTR_SIZE && Room(len) && (sp % PAGE_SIZE == 0 || len <= sp % PAGE_SIZE)
      modifies this`sp, this`cur, this`pages, ms, ms.mem, ms.pt
      ensures sp == old(sp) - len && Backed() && InPlace(pages, old(sp), bytes) && sp % PAGE_SIZE + len <= PAGE_SIZE
      ensures sp + len + |bytes| == high * PAGE_SIZE && cur == Some(sp / PAGE_SIZE) && cur.value in pages
    {
      hide InPlace, Since, Mirrors;
      StackArea(ms, k, begun);
      DownInPage(sp, len, low);
      if sp % PAGE_SIZE == 0 {
        Touch((sp - len) / PAGE_SIZE);
        cur := Some((sp - len) / PAGE_SIZE);
      }
      sp := sp - len;
    }

    /** Write below the stack pointer, inside the current frame. */
    method Push(xs: seq<Byte>)
      requires Valid() && 0 < |xs| <= PTR_SIZE && Room(|xs|) && (sp % PAGE_SIZE == 0 || |xs| <= sp % PAGE_SIZE)
      modifies this, ms, ms.mem, ms.pt
      ensures Valid() && bytes == xs + old(bytes) && sp == old(sp) - |xs|
    {
      hide StackWriter.Valid, StackWriter.Backed, InPlace;
      SpDown(|xs|);
      Write(xs);
    }

    method Write(xs: seq<Byte>)
      requires Backed() && InPlace(pages, sp + |xs|, bytes) && 0 < |xs| && sp % PAGE_SIZE + |xs| <= PAGE_SIZE
      requires cur == Some(sp / PAGE_SIZE) && cur.value in pages && sp + |xs| + |bytes| == high * PAGE_SIZE
      modifies this`bytes, this`pages, ms.mem`pages
      ensures Valid() && bytes == xs + old(bytes)
    {
      hide Since, InPlace, Mirrors, FramesLive, Private;
      StackArea(ms, k, begun);
      StackPage(ms, k, cur.value, pages, begun);
      var ppn, at := ms.areas[k].pages[cur.value], sp % PAGE_SIZE;
      var page := Poked(ms.mem.pages[ppn], at, xs);
      PokeInPlace(pages, sp + |xs|, bytes, cur.value, at, xs);
      WriteMirrors(ms.areas, k, cur.value, ms.mem.pages, pages, page);
      WriteFrame(ms, k, ppn, page, cur.value, begun);
      pages := pages[cur.value := page];
      bytes := xs + bytes;
    }

    lemma AtTop()
      requires Valid() && bytes == []
      ensures sp == high * PAGE_SIZE
    {
    }

    method PushByte(b: Byte)
      requires Valid() && Room(1)
      modifies this, ms, ms.mem, ms.pt
      ensures Valid() && bytes == [b] + old(bytes) && sp == old(sp) - 1
    {
      hide StackWriter.Valid;
      Push([b]);
    }

    method PushUsize(num: nat)
      requires Valid() && Room(PTR_SIZE) && !(0 < sp % PAGE_SIZE < PTR_SIZE)
      modifies this, ms, ms.mem, ms.pt
      ensures Valid() && bytes == LeWord(num) + old(bytes) && sp == old(sp) - PTR_SIZE
    {
      hide StackWriter.Valid;
      Push(LeWord(num));
    }

    /** Push a string with its closing zero; it begins at the new stack pointer. */
    method PushStr(s: seq<Byte>) returns (addr: nat)
      requires Valid() && Room(|s| + 1)
      modifies this, ms, ms.mem, ms.pt
      ensures Valid() && addr == sp == old(sp) - |s| - 1 && bytes == s + [0] + old(bytes)
    {
      hide StackWriter.Valid;
      PushByte(0);
      var i := |s|;
      ghost var below := bytes;
      assert s[i..] + below == below;
      while i > 0
        invariant 0 <= i <= |s| && Valid() && sp == old(sp) - 1 - (|s| - i) && bytes == s[i..] + below
      {
        i := i - 1;
        PushByte(s[i]);
        assert s[i..] == [s[i]] + s[i + 1..];
      }
      assert s[0..] == s;
      assert bytes == s + [0] + old(bytes);
      addr := sp;
    }

    method PushStrs(strs: seq<seq<Byte>>) returns (addrs: seq<nat>)
      requires Valid() && Room(StrsLen(strs))
      modifies this, ms, ms.mem, ms.pt
      ensures Valid() && sp == old(sp) - StrsLen(strs) && Strings(sp, bytes, addrs, strs) && EndsWith(bytes, old(bytes))
      ensures sp + |bytes| == old(sp) + |old(bytes)|
    {
      hide StackWriter.Valid;
      addrs := [];
      var i := 0;
      assert strs[..0] == [] && EndsWith(bytes, bytes);
      hide EndsWith, Strings, StrsLen;
      NoStrings(sp, bytes);
      while i < |strs|
        invariant 0 <= i <= |strs| && Valid() && sp == old(sp) - StrsLen(strs[..i]) && Strings(sp, bytes, addrs, strs[..i])
        invariant EndsWith(bytes, old(bytes)) && sp + |bytes| == old(sp) + |old(bytes)|
      {
        StrsLenStep(strs, i);
        ghost var sp0, bytes0 := sp, bytes;
        var addr := PushStr(strs[i]);
        OneMoreString(sp0, bytes0, addrs, strs, i);
        StillEndsWith(strs[i] + [0], bytes0, old(bytes));
        addrs := addrs + [addr];
        i := i + 1;
      }
      assert strs[..i] == strs;
    }

    /** Push a word where the stack pointer is aligned. */
    method PushWord(num: nat)
      requires Valid() && Room(PTR_SIZE) && IsAligned(sp)
      modifies this, ms, ms.mem, ms.pt
      ensures Valid() && bytes == LeWord(num) + old(bytes) && sp == old(sp) - PTR_SIZE && IsAligned(sp)
    {
      hide StackWriter.Valid;
      Aligned(sp);
      PushUsize(num);
    }

    /** Push a pointer vector; its first pointer ends up lowest. */
    method PushPtrs(ptrs: seq<nat>)
      requires Valid() && Room(PTR_SIZE * |ptrs|) && IsAligned(sp)
      modifies this, ms, ms.mem, ms.pt
      ensures Valid() && sp == old(sp) - PTR_SIZE * |ptrs| && IsAligned(sp) && bytes == Words(ptrs) + old(bytes)
    {
      hide StackWriter.Valid;
      var i := |ptrs|;
      assert Words(ptrs[i..]) + bytes == bytes;
      hide Words, LeWord, IsAligned;
      while i > 0
        invariant 0 <= i <= |ptrs| && Valid() && sp == old(sp) - PTR_SIZE * (|ptrs| - i) && IsAligned(sp)
        invariant bytes == Words(ptrs[i..]) + old(bytes)
      {
        i := i - 1;
        WordsStep(ptrs, i, old(bytes));
        PushWord(ptrs[i]);
      }
      assert ptrs[0..] == ptrs;
    }

    /** One more word below the words already pushed. */
    method PushOn(num: nat, ghost ws: seq<nat>, ghost base: seq<Byte>)
      requires Valid() && Room(PTR_SIZE) && IsAligned(sp) && bytes == Words(ws) + base
      modifies this, ms, ms.mem, ms.pt
      ensures Valid() && sp == old(sp) - PTR_SIZE && IsAligned(sp) && bytes == Words([num] + ws) + base
    {
      hide StackWriter.Valid;
      PushWord(num);
      assert ([num] + ws)[1..] == ws;
      assert LeWord(num) + (Words(ws) + base) == Words([num] + ws) + base;
    }

    method PushPtrsOn(ptrs: seq<nat>, ghost ws: seq<nat>, ghost base: seq<Byte>)
      requires Valid() && Room(PTR_SIZE * |ptrs|) && IsAligned(sp) && bytes == Words(ws) + base
      modifies this, ms, ms.mem, ms.pt
      ensures Valid() && sp == old(sp) - PTR_SIZE * |ptrs| && IsAligned(sp) && bytes == Words(ptrs + ws) + base
    {
      hide StackWriter.Valid;
      PushPtrs(ptrs);
      WordsConcat(ptrs, ws);
      assert Words(ptrs) + (Words(ws) + base) == Words(ptrs) + Words(ws) + base;
    }

    method PushPair(key: nat, value: nat, ghost ws: seq<nat>, ghost base: seq<Byte>)
      requires Valid() && Room(2 * PTR_SIZE) && IsAligned(sp) && bytes == Words(ws) + base
      modifies this, ms, ms.mem, ms.pt
      ensures Valid() && sp == old(sp) - 2 * PTR_SIZE && IsAligned(sp) && bytes == Words([key, value] + ws) + base
    {
      hide StackWriter.Valid, Words, IsAligned;
      PushOn(value, ws, base);
      PushOn(key, [value] + ws, base);
      assert [key] + ([value] + ws) == [key, value] + ws;
    }

    /** Push the auxiliary pairs, each with its type below its value. */
    method PushAuxv(auxv: seq<(nat, nat)>, ghost ws: seq<nat>, ghost base: seq<Byte>)
      requires Valid() && Room(PTR_SIZE * (2 * |auxv|)) && IsAligned(sp) && bytes == Words(ws) + base
      modifies this, ms, ms.mem, ms.pt
      ensures Valid() && sp == old(sp) - PTR_SIZE * (2 * |auxv|) && IsAligned(sp) && bytes == Words(AuxWords(auxv) + ws) + base
    {
      hide StackWriter.Valid;
      var i := 0;
      assert auxv[..0] == [] && AuxWords(auxv[..0]) + ws == ws;
      hide Words, IsAligned, AuxWords;
      while i < |auxv|
        invariant 0 <= i <= |auxv| && Valid() && sp == old(sp) - 2 * PTR_SIZE * i && IsAligned(sp)
        invariant bytes == Words(AuxWords(auxv[..i]) + ws) + base
      {
        AuxWordsStep(auxv, i, ws);
        PushPair(auxv[i].0, auxv[i].1, AuxWords(auxv[..i]) + ws, base);
        i := i + 1;
      }
      assert auxv[..i] == auxv;
    }

    /** The auxiliary pairs, above them the address of the random bytes and the closing null pair. */
    method PushAuxPart(auxv: seq<(nat, nat)>, randomPos: nat)
      requires Valid() && IsAligned(sp) && Room(PTR_SIZE * (2 * |auxv| + 4))
      modifies this, ms, ms.mem, ms.pt
      ensures Valid() && IsAligned(sp) && bytes == Words(AuxPart(auxv, randomPos)) + old(bytes)
      ensures sp == old(sp) - PTR_SIZE * (2 * |auxv| + 4)
    {
      hide StackWriter.Valid;
      ghost var base := bytes;
      assert bytes == Words([]) + base;
      hide IsAligned, Words, AuxWords;
      PushOn(0, [], base);
      PushOn(0, [0], base);
      PushOn(AT_RANDOM, [0, 0], base);
      PushOn(randomPos, [AT_RANDOM, 0, 0], base);
      PushAuxv(auxv, [randomPos, AT_RANDOM, 0, 0], base);
    }

    /** The pointer vectors, each closed by a null, and argc below them. */
    method PushVectors(argv: seq<nat>, envs: seq<nat>, ghost ws: seq<nat>, ghost base: seq<Byte>) returns (argvBase: nat)
      requires Valid() && IsAligned(sp) && Room(PTR_SIZE * (|argv| + |envs| + 3)) && bytes == Words(ws) + base
      modifies this, ms, ms.mem, ms.pt
      ensures Valid() && bytes == Words(Vectors(argv, envs, ws)) + base
      ensures sp == old(sp) - PTR_SIZE * (|argv| + |envs| + 3) && argvBase == sp + PTR_SIZE
    {
      hide StackWriter.Valid;
      VectorsAre(argv, envs, ws);
      hide IsAligned, Words, Vectors;
      PushOn(0, ws, base);
      PushPtrsOn(envs, [0] + ws, base);
      ghost var es := envs + ([0] + ws);
      PushOn(0, es, base);
      PushPtrsOn(argv, [0] + es, base);
      argvBase := sp;
      PushOn(|argv|, argv + ([0] + es), base);
    }

    /** Clear the low three bits of the stack pointer: it stays in its page, over bytes already there. */
    method AlignDown()
      requires Valid() && Room(PTR_SIZE)
      modifies this`sp, this`bytes
      ensures Valid() && IsAligned(sp) && old(sp) - PTR_SIZE < sp <= old(sp)
      ensures exists pad: seq<Byte> :: bytes == pad + old(bytes) && sp == old(sp) - |pad|
    {
      hide Since, InPlace, Mirrors, FramesLive, Private;
      var n := sp % PTR_SIZE;
      SamePageBelow(sp);
      if n > 0 {
        StackPage(ms, k, cur.value, pages, begun);
        ghost var at := sp % PAGE_SIZE;
        ghost var pad := pages[cur.value][at - n..at];
        PadInPlace(pages, sp, bytes, cur.value, at, n);
        bytes := pad + bytes;
        sp := sp - n;
      } else {
        assert [] + bytes == bytes;
      }
    }

    /** The random words and the environment strings. */
    method PushEnvPart(envs: seq<seq<Byte>>, time1: nat, time2: nat) returns (envPtrs: seq<nat>, randomPos: nat)
      requires Valid() && bytes == [] && Room(3 * PTR_SIZE + StrsLen(envs))
      modifies this, ms, ms.mem, ms.pt
      ensures Valid() && sp == old(sp) - 3 * PTR_SIZE - StrsLen(envs) && Strings(sp, bytes, envPtrs, envs)
    {
      hide StackWriter.Valid, IsAligned;
      AtTop();
      TopAligned(high);
      PushWord(0);
      PushWord(time1);
      PushWord(time2);
      randomPos := sp;
      envPtrs := PushStrs(envs);
    }

    /** A null word, the argument strings and the alignment. */
    method PushArgPart(args: seq<seq<Byte>>, ghost envPtrs: seq<nat>, ghost envs: seq<seq<Byte>>) returns (argPtrs: seq<nat>)
      requires Valid() && Room(2 * PTR_SIZE + StrsLen(args)) && !(0 < sp % PAGE_SIZE < PTR_SIZE) && Strings(sp, bytes, envPtrs, envs)
      modifies this, ms, ms.mem, ms.pt
      ensures Valid() && IsAligned(sp) && old(sp) - 2 * PTR_SIZE - StrsLen(args) <= sp
      ensures Strings(sp, bytes, argPtrs, args) && Strings(sp, bytes, envPtrs, envs)
    {
      hide StackWriter.Valid, Strings, StrsLen, IsAligned, LeWord;
      StringsOn(sp, bytes, envPtrs, envs, LeWord(0));
      PushUsize(0);
      ghost var sp0, bytes0 := sp, bytes;
      argPtrs := PushStrs(args);
      StringsUnder(sp0, bytes0, envPtrs, envs, sp, bytes);
      ghost var sp1, bytes1 := sp, bytes;
      AlignDown();
      ghost var pad :| bytes == pad + bytes1 && sp == sp1 - |pad|;
      StringsOn(sp1, bytes1, envPtrs, envs, pad);
      StringsOn(sp1, bytes1, argPtrs, args, pad);
    }

    /** The whole stack. What a program finds from the returned stack pointer up: argc, the argument
        pointers closed by a null, the environment pointers closed by a null, the auxiliary pairs; and
        at each pointer its string, closed by a zero. `None` stands for the one word, behind the
        environment strings, whose bytes would run over the end of the current frame. */
    method InitStack(args: seq<seq<Byte>>, envs: seq<seq<Byte>>, auxv: seq<(nat, nat)>, time1: nat, time2: nat)
      returns (r: Option<(nat, nat)>)
      requires Valid() && bytes == [] && Room(Needed(args, envs) + PTR_SIZE * (|args| + |envs| + 2 * |auxv| + 7))
      modifies this, ms, ms.mem, ms.pt
      ensures r.None? <==> Strays(envs)
      ensures r.Some? ==>
                && Valid() && r.value == (sp, sp + PTR_SIZE)
                && exists argv, envp, random :: Laid(sp, bytes, args, envs, auxv, argv, envp, random)
    {
      hide StackWriter.Valid, Strings, StrsLen, Laid, Strays, Needed, IsAligned;
      var strings := PushStrings(args, envs, time1, time2);
      if strings.None? {
        return None;
      }
      var (argv, envp, random) := strings.value;
      var argvBase := PushBelow(args, envs, auxv, argv, envp, random);
      r := Some((sp, argvBase));
    }

    /** The random words, both groups of strings, and the alignment. */
    method PushStrings(args: seq<seq<Byte>>, envs: seq<seq<Byte>>, time1: nat, time2: nat)
      returns (r: Option<(seq<nat>, seq<nat>, nat)>)
      requires Valid() && bytes == [] && Room(Needed(args, envs))
      modifies this, ms, ms.mem, ms.pt
      ensures r.None? <==> Strays(envs)
      ensures r.Some? ==> Valid() && IsAligned(sp) && sp + Needed(args, envs) >= old(sp)
      ensures r.Some? ==> Strings(sp, bytes, r.value.0, args) && Strings(sp, bytes, r.value.1, envs)
      ensures r.Some? ==> |r.value.0| == |args| && |r.value.1| == |envs|
    {
      hide StackWriter.Valid;
      AtTop();
      hide StrsLen;
      var envp, random := PushEnvPart(envs, time1, time2);
      StrayAt(high, StrsLen(envs));
      if 0 < sp % PAGE_SIZE < PTR_SIZE {
        return None;
      }
      var argv := PushArgPart(args, envp, envs);
      r := Some((argv, envp, random));
    }

    /** Everything below the strings. */
    method PushBelow(ghost args: seq<seq<Byte>>, ghost envs: seq<seq<Byte>>, auxv: seq<(nat, nat)>,
                     argv: seq<nat>, envp: seq<nat>, random: nat) returns (argvBase: nat)
      requires Valid() && IsAligned(sp) && Room(PTR_SIZE * (|argv| + |envp| + 2 * |auxv| + 7))
      requires Strings(sp, bytes, argv, args) && Strings(sp, bytes, envp, envs)
      modifies this, ms, ms.mem, ms.pt
      ensures Valid() && argvBase == sp + PTR_SIZE && Laid(sp, bytes, args, envs, auxv, argv, envp, random)
    {
      hide StackWriter.Valid, Strings, Laid, IsAligned, Words, Vectors, AuxPart;
      ghost var sp0, bytes0 := sp, bytes;
      PushAuxPart(auxv, random);
      argvBase := PushVectors(argv, envp, AuxPart(auxv, random), bytes0);
      LaidOut(sp0, bytes0, args, envs, auxv, argv, envp, random);
    }
  }

  /** Argument and environment strings at their pointers, and the vectors from the stack pointer up. */
  ghost predicate Laid(sp: nat, bytes: seq<Byte>, args: seq<seq<Byte>>, envs: seq<seq<Byte>>, auxv: seq<(nat, nat)>,
                       argv: seq<nat>, envp: seq<nat>, random: nat) {
    && Strings(sp, bytes, argv, args) && Strings(sp, bytes, envp, envs)
    && HoldsAt(sp, bytes, sp, Words(Vectors(argv, envp, AuxPart(auxv, random))))
  }

  lemma LaidOut(sp: nat, bytes: seq<Byte>, args: seq<seq<Byte>>, envs: seq<seq<Byte>>, auxv: seq<(nat, nat)>,
                argv: seq<nat>, envp: seq<nat>, random: nat)
    requires Strings(sp, bytes, argv, args) && Strings(sp, bytes, envp, envs)
    requires PTR_SIZE * (|argv| + |envp| + 2 * |auxv| + 7) <= sp
    ensures Laid(sp - PTR_SIZE * (|argv| + |envp| + 2 * |auxv| + 7), Words(Vectors(argv, envp, AuxPart(auxv, random))) + bytes,
                 args, envs, auxv, argv, envp, random)
  {
    var more := Words(Vectors(argv, envp, AuxPart(auxv, random)));
    StringsOn(sp, bytes, argv, args, more);
    StringsOn(sp, bytes, envp, envs, more);
    assert HoldsAt(sp - |more|, more + bytes, sp - |more|, more);
  }

  /** Space for the random words, the strings with a word between them, and the alignment. */
  function Needed(args: seq<seq<Byte>>, envs: seq<seq<Byte>>): nat {
    5 * PTR_SIZE + StrsLen(envs) + StrsLen(args)
  }

  /** The word behind the environment strings would begin in one page and end in the next. */
  predicate Strays(envs: seq<seq<Byte>>) {
    (3 * PTR_SIZE + StrsLen(envs)) % PAGE_SIZE > PAGE_SIZE - PTR_SIZE
  }

  lemma StrayAt(high: nat, n: nat)
    requires 3 * PTR_SIZE + n <= high * PAGE_SIZE
    ensures 0 < (high * PAGE_SIZE - 3 * PTR_SIZE - n) % PAGE_SIZE < PTR_SIZE <==> (3 * PTR_SIZE + n) % PAGE_SIZE > PAGE_SIZE - PTR_SIZE
  {
  }

  /** The address of that word is a multiple of eight exactly when the environment strings together are;
      a word that strays never is. */
  lemma WordAligned(high: nat, envs: seq<seq<Byte>>)
    requires 4 * PTR_SIZE + StrsLen(envs) <= high * PAGE_SIZE
    ensures IsAligned(high * PAGE_SIZE - 4 * PTR_SIZE - StrsLen(envs)) <==> StrsLen(envs) % PTR_SIZE == 0
    ensures Strays(envs) ==> !IsAligned(high * PAGE_SIZE - 4 * PTR_SIZE - StrsLen(envs))
  {
    hide StrsLen;
    DownFrom(512 * high - 4, StrsLen(envs));
    if StrsLen(envs) % PTR_SIZE == 0 { EvenStays(StrsLen(envs) / PTR_SIZE); }
  }

  lemma DownFrom(top: nat, n: nat)
    requires n <= 8 * top
    ensures (8 * top - n) % 8 == 0 <==> n % 8 == 0
  {
  }

  lemma EvenStays(j: nat)
    ensures (3 * PTR_SIZE + PTR_SIZE * j) % PAGE_SIZE <= PAGE_SIZE - PTR_SIZE
  {
    var q := (3 + j) / 512;
    InPage(3 * PTR_SIZE + PTR_SIZE * j, q, 8 * (3 + j - 512 * q));
  }

  lemma PageTop(high: nat)
    ensures high * PAGE_SIZE / PAGE_SIZE == high && high * PAGE_SIZE % PAGE_SIZE == 0
  {
  }

  /** Where a push inside one page leads. */
  lemma DownInPage(sp: nat, len: nat, low: nat)
    requires 0 < len <= PTR_SIZE && low * PAGE_SIZE + len <= sp && (sp % PAGE_SIZE == 0 || len <= sp % PAGE_SIZE)
    ensures (sp - len) % PAGE_SIZE + len <= PAGE_SIZE && low <= (sp - len) / PAGE_SIZE
    ensures if sp % PAGE_SIZE == 0 then (sp - len) / PAGE_SIZE == sp / PAGE_SIZE - 1 else (sp - len) / PAGE_SIZE == sp / PAGE_SIZE
  {
    var q, at := sp / PAGE_SIZE, sp % PAGE_SIZE;
    if at == 0 { InPage(sp - len, q - 1, PAGE_SIZE - len); } else { InPage(sp - len, q, at - len); }
  }

  lemma SpaceLive(ms: MemorySpace)
    requires ms.Valid()
    ensures FramesLive(ms.areas, ms.mem.pages) && Wf(ms.View())
    ensures ms.mem.free !! ms.mem.tables.Keys && ms.mem.free !! ms.mem.pages.Keys
  {
  }

  lemma StackArea(ms: MemorySpace, k: nat, b: Begun)
    requires Since(ms, k, b)
    ensures k in ms.areas && ms.areas[k].start == k
  {
    assert AreaOk(k, ms.areas[k]);
  }

  /** A page of the stack's area has a whole frame that the address space owns. */
  lemma PageLive(ms: MemorySpace, k: nat, v: nat)
    requires ms.Valid() && k in ms.areas && v in ms.areas[k].pages
    ensures FramesLive(ms.areas, ms.mem.pages) && Private(ms.areas)
    ensures var p := ms.areas[k].pages[v]; p in ms.mem.pages && |ms.mem.pages[p]| == PAGE_SIZE && p in ms.Own()
  {
  }

  lemma StackPage(ms: MemorySpace, k: nat, v: nat, pages: Pages, b: Begun)
    requires Since(ms, k, b) && Mirrors(ms.areas, k, ms.mem.pages, pages) && v in pages
    ensures ms.mem.Valid() && Private(ms.areas) && v in ms.areas[k].pages && |pages[v]| == PAGE_SIZE
    ensures var p := ms.areas[k].pages[v]; p in ms.mem.pages && ms.mem.pages[p] == pages[v]
  {
    PageLive(ms, k, v);
  }

  lemma MirrorSame(areas: Areas, k: nat, frames: Pages, pages: Pages, v: nat)
    requires Mirrors(areas, k, frames, pages) && v in pages
    ensures v in areas[k].pages && areas[k].pages[v] in frames && pages[v] == frames[areas[k].pages[v]]
  {
  }

  /** Write a whole frame of a page of the stack. */
  method WriteFrame(ms: MemorySpace, k: nat, ppn: nat, page: seq<Byte>, ghost v: nat, ghost b: Begun)
    requires Since(ms, k, b) && v in ms.areas[k].pages && ppn == ms.areas[k].pages[v] && |page| == PAGE_SIZE
    modifies ms.mem`pages
    ensures Since(ms, k, b) && ms.mem.pages == old(ms.mem.pages)[ppn := page]
  {
    hide Confined, Grew, Wf, FramesLive, OwnTables, KernelTables, PageFrames, TreeOk, FramesOk, Flat, Private;
    PageLive(ms, k, v);
    LiveMore(ms.areas, ms.mem.pages, ms.mem.pages[ppn := page]);
    forall t, pg, f, o | Confined(t, pg, f, o, b.tables, b.pages, b.free, b.own) && f !! t.Keys && f !! pg.Keys
      ensures Confined(t, pg, f, o, ms.mem.tables, ms.mem.pages[ppn := page], ms.mem.free, ms.Own())
    {
      OwnPoke(t, pg, f, o, ms.mem.tables, ms.mem.pages, ms.mem.free, ms.Own(), ppn, page);
    }
    ms.mem.WritePage(ppn, page);
  }

  lemma FaultShape(s: Space, k: nat, v: nat, ppn: nat)
    requires k in s.areas
    ensures var a := Fault(s, k, v, ppn).areas[k]; a.kind == s.areas[k].kind && a.start == s.areas[k].start && a.end == s.areas[k].end
  {
  }

  lemma TopAligned(high: nat)
    ensures IsAligned(high * PAGE_SIZE)
  {
  }

  lemma Mod8(x: nat, a: nat, m: nat)
    requires x == 8 * a + m && m < 8
    ensures x % 8 == m
  {
  }

  lemma InPage(x: nat, q: nat, at: nat)
    requires x == PAGE_SIZE * q + at && at < PAGE_SIZE
    ensures x / PAGE_SIZE == q && x % PAGE_SIZE == at
  {
  }

  lemma SamePageBelow(sp: nat)
    ensures sp % PAGE_SIZE >= sp % PTR_SIZE && IsAligned(sp - sp % PTR_SIZE)
    ensures (sp - sp % PTR_SIZE) % PAGE_SIZE == sp % PAGE_SIZE - sp % PTR_SIZE
    ensures (sp - sp % PTR_SIZE) / PAGE_SIZE == sp / PAGE_SIZE
  {
    var q, at := sp / PAGE_SIZE, sp % PAGE_SIZE;
    var j, m := at / PTR_SIZE, at % PTR_SIZE;
    Mod8(sp, 512 * q + j, m);
    Mod8(sp - m, 512 * q + j, 0);
    InPage(sp - m, q, at - m);
  }

  lemma PadInPlace(pages: Pages, sp: nat, bytes: seq<Byte>, k: nat, at: nat, n: nat)
    requires InPlace(pages, sp, bytes) && k in pages && |pages[k]| == PAGE_SIZE && n <= at < PAGE_SIZE && sp == k * PAGE_SIZE + at
    ensures InPlace(pages, sp - n, pages[k][at - n..at] + bytes)
  {
    forall a | sp - n <= a < sp ensures a / PAGE_SIZE == k && a % PAGE_SIZE == a - k * PAGE_SIZE {}
  }

  lemma StringsUnder(sp: nat, bytes: seq<Byte>, addrs: seq<nat>, strs: seq<seq<Byte>>, sp': nat, bytes': seq<Byte>)
    requires Strings(sp, bytes, addrs, strs) && EndsWith(bytes', bytes) && sp' + |bytes'| == sp + |bytes|
    ensures Strings(sp', bytes', addrs, strs)
  {
    var more := bytes'[..|bytes'| - |bytes|];
    assert bytes' == more + bytes;
    StringsOn(sp, bytes, addrs, strs, more);
  }

  function AuxWords(auxv: seq<(nat, nat)>): (r: seq<nat>)
    ensures |r| == 2 * |auxv|
  {
    if auxv == [] then [] else [auxv[|auxv| - 1].0, auxv[|auxv| - 1].1] + AuxWords(auxv[..|auxv| - 1])
  }

  lemma AuxWordsStep(auxv: seq<(nat, nat)>, i: nat, ws: seq<nat>)
    requires i < |auxv|
    ensures [auxv[i].0, auxv[i].1] + (AuxWords(auxv[..i]) + ws) == AuxWords(auxv[..i + 1]) + ws
  {
    assert auxv[..i + 1][..i] == auxv[..i];
  }

  /** The words above the pointer vectors. */
  function AuxPart(auxv: seq<(nat, nat)>, random: nat): (r: seq<nat>)
    ensures |r| == 2 * |auxv| + 4
  {
    AuxWords(auxv) + [random, AT_RANDOM, 0, 0]
  }

  /** Everything from argc up to the strings, word by word. */
  function Vectors(argv: seq<nat>, envs: seq<nat>, rest: seq<nat>): (r: seq<nat>)
    ensures |r| == |argv| + |envs| + 3 + |rest|
  {
    [|argv|] + argv + [0] + envs + [0] + rest
  }

  lemma VectorsAre(argv: seq<nat>, envs: seq<nat>, rest: seq<nat>)
    ensures [|argv|] + (argv + ([0] + (envs + ([0] + rest)))) == Vectors(argv, envs, rest)
  {
  }

  lemma Rejoin(a: seq<Byte>, b: seq<Byte>, c: seq<Byte>)
    ensures a + (b + c) == a + b + c
  {
  }

  lemma {:induction false} WordsConcat(a: seq<nat>, b: seq<nat>)
    ensures Words(a + b) == Words(a) + Words(b)
  {
    hide LeWord;
    if a == [] {
      assert a + b == b;
    } else {
      WordsConcat(a[1..], b);
      assert (a + b)[1..] == a[1..] + b;
      Rejoin(LeWord(a[0]), Words(a[1..]), Words(b));
    }
  }

  lemma WordsStep(ptrs: seq<nat>, i: nat, tail: seq<Byte>)
    requires i < |ptrs|
    ensures Words(ptrs[i..]) + tail == LeWord(ptrs[i]) + (Words(ptrs[i + 1..]) + tail)
  {
    assert ptrs[i..][1..] == ptrs[i + 1..];
  }

  ghost predicate EndsWith(bytes: seq<Byte>, tail: seq<Byte>) {
    |tail| <= |bytes| && bytes[|bytes| - |tail|..] == tail
  }

  lemma StillEndsWith(more: seq<Byte>, bytes: seq<Byte>, tail: seq<Byte>)
    requires EndsWith(bytes, tail)
    ensures EndsWith(more + bytes, tail)
  {
  }

  lemma NoStrings(sp: nat, bytes: seq<Byte>)
    ensures Strings(sp, bytes, [], []) && StrsLen([]) == 0
  {
  }

  lemma OneMoreString(sp: nat, bytes: seq<Byte>, addrs: seq<nat>, strs: seq<seq<Byte>>, i: nat)
    requires i < |strs| && Strings(sp, bytes, addrs, strs[..i]) && |strs[i]| + 1 <= sp
    ensures var more := strs[i] + [0]; Strings(sp - |more|, more + bytes, addrs + [sp - |more|], strs[..i + 1])
  {
    var more := strs[i] + [0];
    StringsOn(sp, bytes, addrs, strs[..i], more);
    assert HoldsAt(sp - |more|, more + bytes, sp - |more|, more);
    assert strs[..i + 1] == strs[..i] + [strs[i]];
  }

  lemma {:induction false} StrsLenStep(strs: seq<seq<Byte>>, i: nat)
    requires i < |strs|
    ensures StrsLen(strs[..i + 1]) == StrsLen(strs[..i]) + |strs[i]| + 1 <= StrsLen(strs)
    decreases |strs|
  {
    assert strs[..i + 1][..i] == strs[..i];
    var n := |strs| - 1;
    if i < n {
      StrsLenStep(strs[..n], i);
      assert strs[..n][..i + 1] == strs[..i + 1];
    } else {
      assert strs[..i + 1] == strs;
    }
  }

  predicate IsAligned(sp: nat) { sp % PTR_SIZE == 0 }

  lemma Aligned(sp: nat)
    requires IsAligned(sp)
    ensures !(0 < sp % PAGE_SIZE < PTR_SIZE) && (sp >= PTR_SIZE ==> IsAligned(sp - PTR_SIZE))
  {
    var q, at, j := sp / PAGE_SIZE, sp % PAGE_SIZE, sp / PTR_SIZE;
    assert at == 8 * (j - 512 * q);
    if sp >= PTR_SIZE { Mod8(sp - PTR_SIZE, j - 1, 0); }
  }

  // --------------------------------------------------------- what the program reads

  /** The word a program loads from `addr`. */
  ghost function Load(sp: nat, bytes: seq<Byte>, addr: nat): nat
    requires sp <= addr && addr + PTR_SIZE <= sp + |bytes|
  {
    Value(bytes[addr - sp..addr - sp + PTR_SIZE])
  }

  lemma {:induction false} WordAt(ws: seq<nat>, j: nat)
    requires j < |ws|
    ensures Words(ws)[PTR_SIZE * j..PTR_SIZE * j + PTR_SIZE] == LeWord(ws[j])
  {
    if j > 0 {
      WordAt(ws[1..], j - 1);
      hide LeWord;
      assert Words(ws)[PTR_SIZE * j..PTR_SIZE * j + PTR_SIZE] == Words(ws[1..])[PTR_SIZE * (j - 1)..PTR_SIZE * (j - 1) + PTR_SIZE];
    }
  }

  lemma SubSlice(bytes: seq<Byte>, xs: seq<Byte>, lo: nat, n: nat)
    requires |xs| <= |bytes| && bytes[..|xs|] == xs && lo + n <= |xs|
    ensures bytes[lo..lo + n] == xs[lo..lo + n]
  {
    assert bytes[..|xs|][lo..lo + n] == bytes[lo..lo + n];
  }

  lemma LoadsFrom(sp: nat, bytes: seq<Byte>, xs: seq<Byte>, at: nat, w: seq<Byte>, v: nat)
    requires HoldsAt(sp, bytes, sp, xs) && at + PTR_SIZE <= |xs| && xs[at..at + PTR_SIZE] == w && Value(w) == v
    ensures at + PTR_SIZE <= |bytes| && Load(sp, bytes, sp + at) == v
  {
    SubSlice(bytes, xs, at, PTR_SIZE);
    LoadIs(sp, bytes, at);
  }

  lemma LoadsWord(sp: nat, bytes: seq<Byte>, ws: seq<nat>, xs: seq<Byte>, j: nat, at: nat)
    requires HoldsAt(sp, bytes, sp, xs) && xs == Words(ws) && j < |ws| && ws[j] < U64 && at == PTR_SIZE * j
    ensures at + PTR_SIZE <= |bytes| && Load(sp, bytes, sp + at) == ws[j]
  {
    WordAt(ws, j);
    WordReadsBack(ws[j]);
    var w := LeWord(ws[j]);
    assert xs[at..at + PTR_SIZE] == w;
    LoadsFrom(sp, bytes, xs, at, w, ws[j]);
  }

  lemma LoadIs(sp: nat, bytes: seq<Byte>, lo: nat)
    requires lo + PTR_SIZE <= |bytes|
    ensures Load(sp, bytes, sp + lo) == Value(bytes[lo..lo + PTR_SIZE])
  {
    hide Value;
  }

  lemma VectorsAt(argv: seq<nat>, envp: seq<nat>, rest: seq<nat>)
    ensures var ws := Vectors(argv, envp, rest);
            && ws[0] == |argv| && ws[1 + |argv|] == 0 && ws[2 + |argv| + |envp|] == 0
            && (forall i | 0 <= i < |argv| :: ws[1 + i] == argv[i]) && (forall i | 0 <= i < |envp| :: ws[2 + |argv| + i] == envp[i])
  {
  }

  /** One word of the vectors, loaded from its place. */
  lemma LoadsVector(sp: nat, bytes: seq<Byte>, ws: seq<nat>, j: nat, w: nat, at: nat)
    requires HoldsAt(sp, bytes, sp, Words(ws)) && j < |ws| && ws[j] == w < U64 && at == PTR_SIZE * j
    ensures at + PTR_SIZE <= |bytes| && Load(sp, bytes, sp + at) == w
  {
    hide Words, Load, Value, LeWord, HoldsAt;
    LoadsWord(sp, bytes, ws, Words(ws), j, at);
  }

  /** What `Laid` says of the vectors. */
  lemma LaidWords(sp: nat, bytes: seq<Byte>, args: seq<seq<Byte>>, envs: seq<seq<Byte>>, auxv: seq<(nat, nat)>,
                  argv: seq<nat>, envp: seq<nat>, random: nat)
    requires Laid(sp, bytes, args, envs, auxv, argv, envp, random)
    ensures var ws := Vectors(argv, envp, AuxPart(auxv, random));
            && HoldsAt(sp, bytes, sp, Words(ws)) && |ws| > 2 + |args| + |envs| && |argv| == |args| && |envp| == |envs|
            && ws[0] == |args| && ws[1 + |args|] == 0 && ws[2 + |args| + |envs|] == 0
  {
    VectorsAt(argv, envp, AuxPart(auxv, random));
  }

  lemma LaidArg(sp: nat, bytes: seq<Byte>, args: seq<seq<Byte>>, envs: seq<seq<Byte>>, auxv: seq<(nat, nat)>,
                argv: seq<nat>, envp: seq<nat>, random: nat, i: nat)
    requires Laid(sp, bytes, args, envs, auxv, argv, envp, random) && i < |args|
    ensures |argv| == |args| && HoldsAt(sp, bytes, argv[i], args[i] + [0])
    ensures Vectors(argv, envp, AuxPart(auxv, random))[1 + i] == argv[i] <= sp + |bytes|
  {
    VectorsAt(argv, envp, AuxPart(auxv, random));
  }

  lemma LaidEnv(sp: nat, bytes: seq<Byte>, args: seq<seq<Byte>>, envs: seq<seq<Byte>>, auxv: seq<(nat, nat)>,
                argv: seq<nat>, envp: seq<nat>, random: nat, i: nat)
    requires Laid(sp, bytes, args, envs, auxv, argv, envp, random) && i < |envs|
    ensures |argv| == |args| && |envp| == |envs| && HoldsAt(sp, bytes, envp[i], envs[i] + [0])
    ensures Vectors(argv, envp, AuxPart(auxv, random))[2 + |args| + i] == envp[i] <= sp + |bytes|
  {
    VectorsAt(argv, envp, AuxPart(auxv, random));
  }

  /** From the stack pointer up a program loads argc, then nulls behind both pointer vectors. */
  lemma ProgramReads(sp: nat, bytes: seq<Byte>, args: seq<seq<Byte>>, envs: seq<seq<Byte>>, auxv: seq<(nat, nat)>,
                     argv: seq<nat>, envp: seq<nat>, random: nat)
    requires Laid(sp, bytes, args, envs, auxv, argv, envp, random) && sp + |bytes| < U64
    ensures PTR_SIZE * (3 + |args| + |envs|) <= |bytes|
    ensures Load(sp, bytes, sp) == |args|
    ensures Load(sp, bytes, sp + PTR_SIZE * (1 + |args|)) == 0
    ensures Load(sp, bytes, sp + PTR_SIZE * (2 + |args| + |envs|)) == 0
  {
    hide Laid, Vectors, Words, Load, HoldsAt, AuxPart;
    var ws := Vectors(argv, envp, AuxPart(auxv, random));
    LaidWords(sp, bytes, args, envs, auxv, argv, envp, random);
    LoadsVector(sp, bytes, ws, 2 + |args| + |envs|, 0, PTR_SIZE * (2 + |args| + |envs|));
    LoadsVector(sp, bytes, ws, 0, |args|, 0);
    LoadsVector(sp, bytes, ws, 1 + |args|, 0, PTR_SIZE * (1 + |args|));
  }

  /** The `i`-th argument pointer leads to the `i`-th argument, closed by a zero. */
  lemma ProgramReadsArg(sp: nat, bytes: seq<Byte>, args: seq<seq<Byte>>, envs: seq<seq<Byte>>, auxv: seq<(nat, nat)>,
                        argv: seq<nat>, envp: seq<nat>, random: nat, i: nat)
    requires Laid(sp, bytes, args, envs, auxv, argv, envp, random) && sp + |bytes| < U64 && i < |args|
    ensures PTR_SIZE * (1 + i) + PTR_SIZE <= |bytes|
    ensures HoldsAt(sp, bytes, Load(sp, bytes, sp + PTR_SIZE * (1 + i)), args[i] + [0])
  {
    hide Laid, Vectors, Words, Load, HoldsAt, AuxPart;
    LaidWords(sp, bytes, args, envs, auxv, argv, envp, random);
    LaidArg(sp, bytes, args, envs, auxv, argv, envp, random, i);
    LoadsVector(sp, bytes, Vectors(argv, envp, AuxPart(auxv, random)), 1 + i, argv[i], PTR_SIZE * (1 + i));
  }

  /** The `i`-th environment pointer leads to the `i`-th environment string. */
  lemma ProgramReadsEnv(sp: nat, bytes: seq<Byte>, args: seq<seq<Byte>>, envs: seq<seq<Byte>>, auxv: seq<(nat, nat)>,
                        argv: seq<nat>, envp: seq<nat>, random: nat, i: nat)
    requires Laid(sp, bytes, args, envs, auxv, argv, envp, random) && sp + |bytes| < U64 && i < |envs|
    ensures PTR_SIZE * (2 + |args| + i) + PTR_SIZE <= |bytes|
    ensures HoldsAt(sp, bytes, Load(sp, bytes, sp + PTR_SIZE * (2 + |args| + i)), envs[i] + [0])
  {
    hide Laid, Vectors, Words, Load, HoldsAt, AuxPart;
    LaidWords(sp, bytes, args, envs, auxv, argv, envp, random);
    LaidEnv(sp, bytes, args, envs, auxv, argv, envp, random, i);
    LoadsVector(sp, bytes, Vectors(argv, envp, AuxPart(auxv, random)), 2 + |args| + i, envp[i], PTR_SIZE * (2 + |args| + i));
  }

  // --------------------------------------------------- through the address space

  /** A program may load the byte at `a`: its page is translated with the rights of a stack to a frame in use. */
  ghost predicate Loadable(flat: map<nat, Xlat>, pages: Pages, a: nat) {
    && a / PAGE_SIZE in flat && flat[a / PAGE_SIZE].flags == LeafFlags(USTACK_PERM)
    && flat[a / PAGE_SIZE].ppn in pages && |pages[flat[a / PAGE_SIZE].ppn]| == PAGE_SIZE
  }

  /** The `n` bytes a program loads from `a` through its page table, `None` when it faults. */
  ghost function UserBytes(flat: map<nat, Xlat>, pages: Pages, a: nat, n: nat): Option<seq<Byte>> {
    if forall j: nat | a <= j < a + n :: Loadable(flat, pages, j) then
      Some(seq(n, i requires 0 <= i < n && Loadable(flat, pages, a + i) => pages[flat[(a + i) / PAGE_SIZE].ppn][(a + i) % PAGE_SIZE]))
    else None
  }

  ghost predicate UserWord(flat: map<nat, Xlat>, pages: Pages, a: nat, w: nat) {
    UserBytes(flat, pages, a, PTR_SIZE).Some? && Value(UserBytes(flat, pages, a, PTR_SIZE).value) == w
  }

  /** Every byte from `sp` up is what a program loads at its address. */
  ghost predicate Seen(flat: map<nat, Xlat>, pages: Pages, sp: nat, bytes: seq<Byte>) {
    forall a: nat | sp <= a < sp + |bytes| ::
      Loadable(flat, pages, a) && pages[flat[a / PAGE_SIZE].ppn][a % PAGE_SIZE] == bytes[a - sp]
  }

  /** A page of an area that is in place is loaded as such. */
  lemma PlacedSeen(s: Space, k: nat, frames: Pages, pages: Pages, sp: nat, bytes: seq<Byte>)
    requires PagesAgree(s) && k in s.areas && s.areas[k].perm == USTACK_PERM && Mirrors(s.areas, k, frames, pages) && InPlace(pages, sp, bytes)
    ensures Seen(s.flat, frames, sp, bytes)
  {
    forall a: nat | sp <= a < sp + |bytes|
      ensures Loadable(s.flat, frames, a) && frames[s.flat[a / PAGE_SIZE].ppn][a % PAGE_SIZE] == bytes[a - sp]
    {
      var v := a / PAGE_SIZE;
      assert v in pages && v in s.areas[k].pages && s.flat[v] == PageEntry(s.areas[k], v);
    }
  }

  lemma SeenBytes(flat: map<nat, Xlat>, pages: Pages, sp: nat, bytes: seq<Byte>, a: nat, n: nat)
    requires Seen(flat, pages, sp, bytes) && sp <= a && a + n <= sp + |bytes|
    ensures UserBytes(flat, pages, a, n) == Some(bytes[a - sp..a - sp + n])
  {
    var r := UserBytes(flat, pages, a, n);
    assert r.Some? && |r.value| == n;
    forall i | 0 <= i < n ensures r.value[i] == bytes[a - sp..a - sp + n][i] { assert Loadable(flat, pages, a + i); }
    assert r.value == bytes[a - sp..a - sp + n];
  }

  lemma SeenWord(flat: map<nat, Xlat>, pages: Pages, sp: nat, bytes: seq<Byte>, a: nat)
    requires Seen(flat, pages, sp, bytes) && sp <= a && a + PTR_SIZE <= sp + |bytes|
    ensures UserWord(flat, pages, a, Load(sp, bytes, a))
  {
    SeenBytes(flat, pages, sp, bytes, a, PTR_SIZE);
  }

  /** The word at `a` is a pointer, and at it a program finds `str` with its closing zero. */
  ghost predicate PointsTo(flat: map<nat, Xlat>, pages: Pages, a: nat, str: seq<Byte>) {
    exists w :: UserWord(flat, pages, a, w) && UserBytes(flat, pages, w, |str| + 1) == Some(str + [0])
  }

  lemma SeenString(flat: map<nat, Xlat>, pages: Pages, sp: nat, bytes: seq<Byte>, a: nat, str: seq<Byte>)
    requires Seen(flat, pages, sp, bytes) && sp <= a && a + PTR_SIZE <= sp + |bytes|
    requires HoldsAt(sp, bytes, Load(sp, bytes, a), str + [0])
    ensures PointsTo(flat, pages, a, str)
  {
    var w := Load(sp, bytes, a);
    SeenWord(flat, pages, sp, bytes, a);
    SeenBytes(flat, pages, sp, bytes, w, |str| + 1);
  }

  /** What a program started at `sp` finds: argc, a pointer to each argument, a null, a pointer to each environment
      string, a null. */
  ghost predicate ProgramSees(flat: map<nat, Xlat>, pages: Pages, sp: nat, args: seq<seq<Byte>>, envs: seq<seq<Byte>>) {
    && UserWord(flat, pages, sp, |args|)
    && (forall i | 0 <= i < |args| :: PointsTo(flat, pages, sp + PTR_SIZE * (1 + i), args[i]))
    && UserWord(flat, pages, sp + PTR_SIZE * (1 + |args|), 0)
    && (forall i | 0 <= i < |envs| :: PointsTo(flat, pages, sp + PTR_SIZE * (2 + |args| + i), envs[i]))
    && UserWord(flat, pages, sp + PTR_SIZE * (2 + |args| + |envs|), 0)
  }

  lemma LaidSeen(flat: map<nat, Xlat>, pages: Pages, sp: nat, bytes: seq<Byte>, args: seq<seq<Byte>>, envs: seq<seq<Byte>>,
                 auxv: seq<(nat, nat)>, argv: seq<nat>, envp: seq<nat>, random: nat)
    requires Seen(flat, pages, sp, bytes) && Laid(sp, bytes, args, envs, auxv, argv, envp, random) && sp + |bytes| < U64
    ensures ProgramSees(flat, pages, sp, args, envs)
  {
    hide Laid, Seen, PointsTo, UserWord, Load;
    ProgramReads(sp, bytes, args, envs, auxv, argv, envp, random);
    SeenWord(flat, pages, sp, bytes, sp);
    SeenWord(flat, pages, sp, bytes, sp + PTR_SIZE * (1 + |args|));
    SeenWord(flat, pages, sp, bytes, sp + PTR_SIZE * (2 + |args| + |envs|));
    forall i | 0 <= i < |args| ensures PointsTo(flat, pages, sp + PTR_SIZE * (1 + i), args[i]) {
      ProgramReadsArg(sp, bytes, args, envs, auxv, argv, envp, random, i);
      SeenString(flat, pages, sp, bytes, sp + PTR_SIZE * (1 + i), args[i]);
    }
    forall i | 0 <= i < |envs| ensures PointsTo(flat, pages, sp + PTR_SIZE * (2 + |args| + i), envs[i]) {
      ProgramReadsEnv(sp, bytes, args, envs, auxv, argv, envp, random, i);
      SeenString(flat, pages, sp, bytes, sp + PTR_SIZE * (2 + |args| + i), envs[i]);
    }
  }

  /** All the bytes a stack takes. */
  function StackNeed(args: seq<seq<Byte>>, envs: seq<seq<Byte>>, auxv: seq<(nat, nat)>): nat {
    Needed(args, envs) + PTR_SIZE * (|args| + |envs| + 2 * |auxv| + 7)
  }

  lemma StackBounds(tid: nat, need: nat)
    requires (tid + 1) * (USER_STACK_SIZE + PAGE_SIZE) <= LOW_END && 0 < need <= USER_STACK_SIZE
    ensures tid * (USER_STACK_SIZE + PAGE_SIZE) <= LOW_END && 0 < UserStackLow(tid) && UserStackHigh(tid) <= LOW_VPN
    ensures UserStackHigh(tid) - UserStackLow(tid) == 2048 && 0 < VpnCeil(need) <= 2048 && need <= VpnCeil(need) * PAGE_SIZE
  {
    assert UserStackHigh(tid) == LOW_VPN - tid * 2049;
  }

  /** Map the range of a stack. */
  method AllocUserStack(ms: MemorySpace, lo: nat, hi: nat)
    requires ms.Valid() && lo < hi <= LOW_VPN && FreeRange(ms.areas, lo, hi)
    modifies ms, ms.mem
    ensures ms.Valid() && ms.View() == MapArea(old(ms.View()), lo, hi, USTACK_PERM)
    ensures ms.mem.pages == old(ms.mem.pages) && ms.mem.free == old(ms.mem.free)
    ensures ms.ConfinedSince(old(ms.mem.tables), old(ms.mem.pages), old(ms.mem.free), old(ms.Own()))
  {
    hide Confined, OwnTables, PageFrames, FramesLive, PageTable.Valid, PageTable.FlatMap;
    MapAreaWf(ms.View(), lo, hi, USTACK_PERM);
    FreeKey(ms.areas, lo, hi);
    ms.UserMap(lo, hi, USTACK_PERM);
  }

  /** A finished stack is what the program finds. */
  lemma WrittenSeen(w: StackWriter, args: seq<seq<Byte>>, envs: seq<seq<Byte>>, auxv: seq<(nat, nat)>)
    requires w.Valid() && w.high <= LOW_VPN && w.k in w.begun.space.areas && w.begun.space.areas[w.k].perm == USTACK_PERM
    requires exists argv, envp, random :: Laid(w.sp, w.bytes, args, envs, auxv, argv, envp, random)
    ensures ProgramSees(w.ms.View().flat, w.ms.mem.pages, w.sp, args, envs)
  {
    var argv, envp, random :| Laid(w.sp, w.bytes, args, envs, auxv, argv, envp, random);
    hide Laid, InPlace, ProgramSees, Seen;
    GrewNot(w.begun.space, w.k);
    PlacedSeen(w.ms.View(), w.k, w.ms.mem.pages, w.pages, w.sp, w.bytes);
    LaidSeen(w.ms.View().flat, w.ms.mem.pages, w.sp, w.bytes, args, envs, auxv, argv, envp, random);
  }

  /** The stack of a new thread: map its range, then write it. Afterwards a program that starts at the returned stack
      pointer finds its arguments and environment through the page table, nothing else in the address space has
      changed, and no frame of another one was touched. */
  method InitStack(ms: MemorySpace, tid: nat, args: seq<seq<Byte>>, envs: seq<seq<Byte>>, auxv: seq<(nat, nat)>, time1: nat, time2: nat)
    returns (r: Option<(nat, nat)>)
    requires ms.Valid() && (tid + 1) * (USER_STACK_SIZE + PAGE_SIZE) <= LOW_END
    requires FreeRange(ms.areas, UserStackLow(tid), UserStackHigh(tid))
    requires StackNeed(args, envs, auxv) <= USER_STACK_SIZE && |ms.mem.free| >= 3 * VpnCeil(StackNeed(args, envs, auxv))
    modifies ms, ms.mem, ms.pt
    ensures r.None? <==> Strays(envs)
    ensures r.Some? ==>
              && r.value.1 == r.value.0 + PTR_SIZE && ms.Valid() && UserStackLow(tid) >= 0
              && Grew(MapArea(old(ms.View()), UserStackLow(tid), UserStackHigh(tid), USTACK_PERM), ms.View(), UserStackLow(tid))
              && ms.ConfinedSince(old(ms.mem.tables), old(ms.mem.pages), old(ms.mem.free), old(ms.Own()))
              && ms.Shared() == old(ms.Shared())
              && ProgramSees(ms.View().flat, ms.mem.pages, r.value.0, args, envs)
  {
    StackBounds(tid, StackNeed(args, envs, auxv));
    SpaceLive(ms);
    hide Wf, Confined, Grew, FramesLive, OwnTables, KernelTables, PageFrames, ProgramSees, Strays, Laid, Needed,
         PageTable.Valid, PageTable.FlatMap, InPlace;
    var lo, hi := UserStackLow(tid), UserStackHigh(tid);
    AllocUserStack(ms, lo, hi);
    ghost var b := Begun(ms.View(), ms.mem.tables, ms.mem.pages, ms.mem.free, ms.Own(), ms.Shared());
    var w := new StackWriter(ms, lo, hi, hi - VpnCeil(StackNeed(args, envs, auxv)));
    r := w.InitStack(args, envs, auxv, time1, time2);
    if r.Some? {
      WrittenSeen(w, args, envs, auxv);
      GrewNot(b.space, lo);
      assert Confined(old(ms.mem.tables), old(ms.mem.pages), old(ms.mem.free), old(ms.Own()), b.tables, b.pages, b.free, b.own);
    }
  }

  /** One environment string of 4064 bytes and no argument, in an empty address space. */
  method LongEnvironmentStrays() returns (r: Option<(nat, nat)>)
    ensures r.None?
  {
    hide Strays, StackNeed, MemorySpace.Valid, MemorySpace.ConfinedSince, ProgramSees;
    var env: seq<Byte> := seq(4064, _ => 65);
    LongEnvironment(env);
    var ms := BareSpace({0, 1, 2, 3, 4, 5, 6});
    r := InitStack(ms, 0, [], [env], [], 0, 0);
  }

  method BareSpace(frames: set<nat>) returns (ms: MemorySpace)
    requires frames == {0, 1, 2, 3, 4, 5, 6}
    ensures fresh(ms) && fresh(ms.mem) && fresh(ms.pt) && ms.Valid() && ms.areas == map[] && |ms.mem.free| >= 6
  {
    SevenFrames(frames);
    hide Wf, Confined, PageTable.Valid;
    var mem := new FrameMemory(frames);
    ms := new MemorySpace.NewBare(mem);
    assert ms.View().areas == map[];
  }

  lemma SevenFrames(frames: set<nat>)
    requires frames == {0, 1, 2, 3, 4, 5, 6}
    ensures |frames| == 7 && frames != {} && forall p | p in frames :: p < PPN_LIMIT
  {
    assert 0 in frames;
  }

  lemma LongEnvironment(env: seq<Byte>)
    requires |env| == 4064
    ensures Strays([env]) && 4096 < StackNeed([], [env], []) <= 8192 && VpnCeil(StackNeed([], [env], [])) == 2
  {
    assert [env][..0] == [] && StrsLen([env]) == 4065 && StrsLen([]) == 0;
  }
}
