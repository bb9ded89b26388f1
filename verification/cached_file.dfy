/** A regular file behind its page cache, as one caller sees it: reads and writes go page by page,
    and together they act on one flat sequence of bytes. */
module CachedFiles {
  import opened Sv39
  import opened PageFill

  type PageBytes = s: seq<Byte> | |s| == PAGE_SIZE witness seq(PAGE_SIZE, _ => 0)
  datatype CachedPage = CachedPage(state: PageState, bytes: PageBytes)
  type Pages = map<nat, CachedPage>

  function Zero(): PageBytes { seq(PAGE_SIZE, _ => 0) }

  predicate Resident(pages: Pages, k: nat) { k in pages && !pages[k].state.Invalid? }

  /** The bytes page `k` stands for: the cached ones, or those of the file behind. */
  function PageAt(back: nat -> PageBytes, pages: Pages, k: nat): PageBytes {
    if Resident(pages, k) then pages[k].bytes else back(k)
  }

  /** Byte `i` of the file. */
  function Raw(back: nat -> PageBytes, pages: Pages, i: nat): Byte {
    PageAt(back, pages, i / PAGE_SIZE)[i % PAGE_SIZE]
  }

  /** Every byte reads alike. */
  ghost predicate SameRaw(back: nat -> PageBytes, pages: Pages, pages': Pages) {
    forall k: nat :: PageAt(back, pages', k) == PageAt(back, pages, k)
  }

  /** A page that is not filled yet is a fresh frame. */
  ghost predicate CacheOk(pages: Pages) {
    forall k | k in pages && pages[k].state.Invalid? :: pages[k].bytes == Zero()
  }

  // --------------------------------------------------------------------- writing

  /** The pages a write of `n` bytes at `offset` touches. */
  predicate Touched(offset: nat, n: nat, k: nat) {
    n > 0 && offset / PAGE_SIZE <= k <= (offset + n - 1) / PAGE_SIZE
  }

  /** The kernel's test for reading a page before it is written: it compares the page number
      with a range of bytes. */
  predicate FilledFirst(dataLen: nat, offset: nat, n: nat, k: nat) {
    && k <= dataLen / PAGE_SIZE
    && offset / PAGE_SIZE * PAGE_SIZE <= k < NextMultiple(offset + n)
  }

  function NextMultiple(x: nat): nat { (x + PAGE_SIZE - 1) / PAGE_SIZE * PAGE_SIZE }

  /** A page whose other bytes a write loses. */
  predicate Lost(pages: Pages, dataLen: nat, offset: nat, n: nat, k: nat) {
    !Resident(pages, k) && !FilledFirst(dataLen, offset, n, k)
  }

  /** What a touched page holds before the new bytes go in. */
  function BaseOf(back: nat -> PageBytes, pages: Pages, dataLen: nat, offset: nat, n: nat, k: nat): PageBytes {
    if Lost(pages, dataLen, offset, n, k) then Zero() else PageAt(back, pages, k)
  }

  /** Byte `i` after the first `m` of the `|data|` bytes are written at `offset`. */
  function Written(back: nat -> PageBytes, pages: Pages, dataLen: nat, offset: nat, data: seq<Byte>, m: nat, i: nat): Byte
    requires m <= |data|
  {
    if offset <= i < offset + m then data[i - offset]
    else if Touched(offset, m, i / PAGE_SIZE) then BaseOf(back, pages, dataLen, offset, |data|, i / PAGE_SIZE)[i % PAGE_SIZE]
    else Raw(back, pages, i)
  }

  ghost predicate OthersKept(offset: nat, m: nat, pages: Pages, pages': Pages) {
    forall k: nat | !Touched(offset, m, k) :: (k in pages' <==> k in pages) && (k in pages ==> pages'[k] == pages[k])
  }

  ghost predicate TouchedResident(offset: nat, m: nat, pages: Pages) {
    forall k: nat | Touched(offset, m, k) :: Resident(pages, k)
  }

  /** The cache after the first `m` bytes of a write that stops only at page ends. */
  ghost predicate PartWritten(back: nat -> PageBytes, pages: Pages, dataLen: nat, offset: nat, data: seq<Byte>, m: nat, pages': Pages) {
    && m <= |data| && (m == 0 || m == |data| || (offset + m) % PAGE_SIZE == 0)
    && CacheOk(pages') && OthersKept(offset, m, pages, pages') && TouchedResident(offset, m, pages')
    && (forall i: nat :: Raw(back, pages', i) == Written(back, pages, dataLen, offset, data, m, i))
  }

  function CopyLen(offset: nat, total: nat, m: nat): nat
    requires m <= total
  {
    var room := PAGE_SIZE - (offset + m) % PAGE_SIZE;
    if total - m < room then total - m else room
  }

  class CachedFile {
    const back: nat -> PageBytes
    var dataLen: nat
    var pages: Pages

    constructor (back: nat -> PageBytes, dataLen: nat)
      ensures this.back == back && this.dataLen == dataLen && pages == map[] && CacheOk(pages)
    {
      this.back, this.dataLen, pages := back, dataLen, map[];
    }

    method GetOrInitPage(k: nat)
      requires CacheOk(pages)
      modifies this`pages
      ensures CacheOk(pages) && k in pages && SameRaw(back, old(pages), pages)
      ensures pages == if k in old(pages) then old(pages) else old(pages)[k := CachedPage(Invalid, Zero())]
    {
      if k !in pages {
        pages := pages[k := CachedPage(Invalid, Zero())];
      }
    }

    /** Bring a page in for reading. */
    method LoadPage(k: nat)
      requires CacheOk(pages)
      modifies this`pages
      ensures CacheOk(pages) && Resident(pages, k) && SameRaw(back, old(pages), pages)
    {
      GetOrInitPage(k);
      if pages[k].state.Invalid? {
        pages := pages[k := CachedPage(Synced, back(k))];
      }
    }

    /** Read: the bytes from `offset` on, as many as the buffer takes and the file has. The file reads
        as before, and the rest of the buffer stays. */
    method ReadAt(buf: array<Byte>, offset: nat) returns (n: nat)
      requires CacheOk(pages)
      modifies this`pages, buf
      ensures CacheOk(pages) && SameRaw(back, old(pages), pages)
      ensures n == if offset > dataLen then 0 else if buf.Length < dataLen - offset then buf.Length else dataLen - offset
      ensures forall j | 0 <= j < n :: buf[j] == Raw(back, old(pages), offset + j)
      ensures forall j | n <= j < buf.Length :: buf[j] == old(buf[j])
    {
      n := 0;
      if offset > dataLen {
        return;
      }
      var readEnd := if buf.Length < dataLen - offset then buf.Length else dataLen - offset;
      while n < readEnd
        invariant n <= readEnd && CacheOk(pages) && SameRaw(back, old(pages), pages)
        invariant forall j | 0 <= j < n :: buf[j] == Raw(back, old(pages), offset + j)
        invariant forall j | n <= j < buf.Length :: buf[j] == old(buf[j])
      {
        var k, at := (offset + n) / PAGE_SIZE, (offset + n) % PAGE_SIZE;
        LoadPage(k);
        var len := CopyLen(offset, readEnd, n);
        CopyOut(buf, n, pages[k].bytes, at, len);
        assert PageAt(back, pages, k) == PageAt(back, old(pages), k);
        forall j | n <= j < n + len ensures buf[j] == Raw(back, old(pages), offset + j) {
          SamePage(offset + n, j - n);
        }
        n := n + len;
      }
    }

    /** Write: afterwards byte `i` of the file is what `Written` says, and the file is long enough. */
    method WriteAt(data: seq<Byte>, offset: nat) returns (n: nat)
      requires CacheOk(pages)
      modifies this
      ensures n == |data| && CacheOk(pages)
      ensures dataLen == if old(dataLen) < offset + |data| then offset + |data| else old(dataLen)
      ensures forall i: nat :: Raw(back, pages, i) == Written(back, old(pages), old(dataLen), offset, data, |data|, i)
    {
      n := 0;
      while n < |data|
        modifies this`pages
        invariant PartWritten(back, old(pages), dataLen, offset, data, n, pages)
      {
        var len := CopyLen(offset, |data|, n);
        WritePage(offset, data, n, old(pages));
        n := n + len;
      }
      if dataLen < offset + |data| {
        dataLen := offset + |data|;
      }
    }

    /** Get a page ready to be written: read it first if the kernel's test says so. */
    method PreparePage(k: nat, offset: nat, total: nat)
      requires CacheOk(pages)
      modifies this`pages
      ensures k in pages && !pages[k].state.Invalid?
      ensures pages[k].bytes == BaseOf(back, old(pages), dataLen, offset, total, k)
      ensures pages == old(pages)[k := pages[k]]
    {
      GetOrInitPage(k);
      if pages[k].state.Invalid? {
        if k <= dataLen / PAGE_SIZE && offset / PAGE_SIZE * PAGE_SIZE <= k < NextMultiple(offset + total) {
          pages := pages[k := CachedPage(Dirty, back(k))];
        } else {
          pages := pages[k := pages[k].(state := Dirty)];
        }
      }
    }

    /** Write one page's share of the bytes. */
    method WritePage(offset: nat, data: seq<Byte>, n: nat, ghost before: Pages)
      requires n < |data| && PartWritten(back, before, dataLen, offset, data, n, pages)
      modifies this`pages
      ensures PartWritten(back, before, dataLen, offset, data, n + CopyLen(offset, |data|, n), pages)
    {
      var k, at := (offset + n) / PAGE_SIZE, (offset + n) % PAGE_SIZE;
      var len := CopyLen(offset, |data|, n);
      StopsAtEnd(offset, |data|, n);
      SameBase(back, before, dataLen, offset, data, n, pages);
      hide PartWritten, CopyLen, BaseOf;
      ghost var pages0 := pages;
      PreparePage(k, offset, |data|);
      WriteOne(back, before, dataLen, offset, data, n, pages0, pages[k].state);
      pages := pages[k := pages[k].(bytes := Patch(pages[k].bytes, at, data[n..n + len]))];
      assert pages == OnePage(back, before, dataLen, offset, data, n, pages0, pages[k].state);
    }
  }

  lemma SameBase(back: nat -> PageBytes, pages: Pages, dataLen: nat, offset: nat, data: seq<Byte>, m: nat, pages': Pages)
    requires m < |data| && PartWritten(back, pages, dataLen, offset, data, m, pages')
    ensures var k := (offset + m) / PAGE_SIZE;
            BaseOf(back, pages', dataLen, offset, |data|, k) == BaseOf(back, pages, dataLen, offset, |data|, k)
    ensures CacheOk(pages')
  {
    RoomLeft(offset, |data|, m);
    NextPage(offset, m, CopyLen(offset, |data|, m), (offset + m) / PAGE_SIZE);
  }

  /** The bytes below the first page a write has not reached are settled. */
  lemma NextPage(offset: nat, m: nat, len: nat, k: nat)
    requires m == 0 || (offset + m) % PAGE_SIZE == 0
    requires 0 < len <= PAGE_SIZE - (offset + m) % PAGE_SIZE
    ensures !Touched(offset, m, (offset + m) / PAGE_SIZE)
    ensures Touched(offset, m + len, k) <==> Touched(offset, m, k) || k == (offset + m) / PAGE_SIZE
  {
    var at := (offset + m) % PAGE_SIZE;
    SamePage(offset + m, len - 1);
    if m > 0 { assert (offset + m - 1) / PAGE_SIZE == (offset + m) / PAGE_SIZE - 1; }
  }

  /** The cache with the next piece of a write in its page. */
  function OnePage(back: nat -> PageBytes, pages: Pages, dataLen: nat, offset: nat, data: seq<Byte>, m: nat,
                   pages': Pages, state: PageState): Pages
    requires m < |data|
  {
    var k, at := (offset + m) / PAGE_SIZE, (offset + m) % PAGE_SIZE;
    var len := CopyLen(offset, |data|, m);
    pages'[k := CachedPage(state, Patch(BaseOf(back, pages, dataLen, offset, |data|, k), at, data[m..m + len]))]
  }

  lemma WriteByte(back: nat -> PageBytes, pages: Pages, dataLen: nat, offset: nat, data: seq<Byte>, m: nat, pages': Pages,
                  state: PageState, i: nat)
    requires m < |data| && PartWritten(back, pages, dataLen, offset, data, m, pages') && !state.Invalid?
    ensures Raw(back, OnePage(back, pages, dataLen, offset, data, m, pages', state), i) ==
            Written(back, pages, dataLen, offset, data, m + CopyLen(offset, |data|, m), i)
  {
    RoomLeft(offset, |data|, m);
    NextPage(offset, m, CopyLen(offset, |data|, m), i / PAGE_SIZE);
    if i / PAGE_SIZE == (offset + m) / PAGE_SIZE {
      WriteInPage(back, pages, dataLen, offset, data, m, pages', state, i);
    } else {
      WriteElsewhere(back, pages, dataLen, offset, data, m, pages', state, i);
    }
  }

  lemma WriteInPage(back: nat -> PageBytes, pages: Pages, dataLen: nat, offset: nat, data: seq<Byte>, m: nat, pages': Pages,
                    state: PageState, i: nat)
    requires m < |data| && (m == 0 || (offset + m) % PAGE_SIZE == 0) && !state.Invalid?
    requires i / PAGE_SIZE == (offset + m) / PAGE_SIZE && Touched(offset, m + CopyLen(offset, |data|, m), i / PAGE_SIZE)
    ensures Raw(back, OnePage(back, pages, dataLen, offset, data, m, pages', state), i) ==
            Written(back, pages, dataLen, offset, data, m + CopyLen(offset, |data|, m), i)
  {
    var len := CopyLen(offset, |data|, m);
    RoomLeft(offset, |data|, m);
    InPage(offset, m, i, len);
    hide Touched, BaseOf, CopyLen;
    var base := BaseOf(back, pages, dataLen, offset, |data|, i / PAGE_SIZE);
    PatchAt(base, (offset + m) % PAGE_SIZE, data[m..m + len], i % PAGE_SIZE);
  }

  lemma PatchAt(page: seq<Byte>, at: nat, data: seq<Byte>, r: nat)
    requires r < |page|
    ensures Patch(page, at, data)[r] == if at <= r < at + |data| then data[r - at] else page[r]
  {
  }

  lemma WriteElsewhere(back: nat -> PageBytes, pages: Pages, dataLen: nat, offset: nat, data: seq<Byte>, m: nat, pages': Pages,
                       state: PageState, i: nat)
    requires m < |data| && i / PAGE_SIZE != (offset + m) / PAGE_SIZE
    requires Raw(back, pages', i) == Written(back, pages, dataLen, offset, data, m, i)
    requires Touched(offset, m + CopyLen(offset, |data|, m), i / PAGE_SIZE) <==> Touched(offset, m, i / PAGE_SIZE)
    ensures Raw(back, OnePage(back, pages, dataLen, offset, data, m, pages', state), i) ==
            Written(back, pages, dataLen, offset, data, m + CopyLen(offset, |data|, m), i)
  {
    RoomLeft(offset, |data|, m);
    OutOfPage(offset + m, i, CopyLen(offset, |data|, m));
    hide Touched, BaseOf, CopyLen;
  }

  lemma InPage(offset: nat, m: nat, i: nat, len: nat)
    requires m == 0 || (offset + m) % PAGE_SIZE == 0
    requires i / PAGE_SIZE == (offset + m) / PAGE_SIZE && (offset + m) % PAGE_SIZE + len <= PAGE_SIZE
    ensures i - (offset + m) == i % PAGE_SIZE - (offset + m) % PAGE_SIZE
    ensures offset <= i < offset + m + len <==> (offset + m) % PAGE_SIZE <= i % PAGE_SIZE < (offset + m) % PAGE_SIZE + len
  {
  }

  lemma OutOfPage(j: nat, i: nat, len: nat)
    requires i / PAGE_SIZE != j / PAGE_SIZE && j % PAGE_SIZE + len <= PAGE_SIZE
    ensures !(j <= i < j + len)
  {
  }

  lemma TouchOne(offset: nat, m: nat, len: nat, pages: Pages, pages': Pages, page: CachedPage)
    requires m == 0 || (offset + m) % PAGE_SIZE == 0
    requires 0 < len <= PAGE_SIZE - (offset + m) % PAGE_SIZE && !page.state.Invalid?
    requires CacheOk(pages') && OthersKept(offset, m, pages, pages') && TouchedResident(offset, m, pages')
    ensures var pages2 := pages'[(offset + m) / PAGE_SIZE := page];
            CacheOk(pages2) && OthersKept(offset, m + len, pages, pages2) && TouchedResident(offset, m + len, pages2)
  {
    var pages2 := pages'[(offset + m) / PAGE_SIZE := page];
    forall k: nat ensures Touched(offset, m + len, k) <==> Touched(offset, m, k) || k == (offset + m) / PAGE_SIZE {
      NextPage(offset, m, len, k);
    }
    hide Touched;
    forall k: nat | Touched(offset, m + len, k) ensures Resident(pages2, k) {
      if k != (offset + m) / PAGE_SIZE { assert Touched(offset, m, k) && Resident(pages', k); }
    }
  }

  lemma WriteOne(back: nat -> PageBytes, pages: Pages, dataLen: nat, offset: nat, data: seq<Byte>, m: nat, pages': Pages, state: PageState)
    requires m < |data| && PartWritten(back, pages, dataLen, offset, data, m, pages') && !state.Invalid?
    ensures PartWritten(back, pages, dataLen, offset, data, m + CopyLen(offset, |data|, m),
                        OnePage(back, pages, dataLen, offset, data, m, pages', state))
  {
    var len := CopyLen(offset, |data|, m);
    var pages2 := OnePage(back, pages, dataLen, offset, data, m, pages', state);
    StopsAtEnd(offset, |data|, m);
    RoomLeft(offset, |data|, m);
    TouchOne(offset, m, len, pages, pages', pages2[(offset + m) / PAGE_SIZE]);
    forall i: nat ensures Raw(back, pages2, i) == Written(back, pages, dataLen, offset, data, m + len, i) {
      WriteByte(back, pages, dataLen, offset, data, m, pages', state, i);
    }
  }

  lemma RoomLeft(offset: nat, total: nat, m: nat)
    requires m < total
    ensures 0 < CopyLen(offset, total, m) <= PAGE_SIZE - (offset + m) % PAGE_SIZE
  {
  }

  lemma StopsAtEnd(offset: nat, total: nat, m: nat)
    requires m < total
    ensures var m' := m + CopyLen(offset, total, m); m < m' <= total && (m' == total || (offset + m') % PAGE_SIZE == 0)
  {
  }

  lemma SamePage(i: nat, j: nat)
    requires i % PAGE_SIZE + j < PAGE_SIZE
    ensures (i + j) / PAGE_SIZE == i / PAGE_SIZE && (i + j) % PAGE_SIZE == i % PAGE_SIZE + j
  {
  }

  method CopyOut(buf: array<Byte>, n: nat, page: PageBytes, at: nat, len: nat)
    requires n + len <= buf.Length && at + len <= PAGE_SIZE
    modifies buf
    ensures forall j | n <= j < n + len :: buf[j] == page[at + (j - n)]
    ensures forall j | 0 <= j < buf.Length && !(n <= j < n + len) :: buf[j] == old(buf[j])
  {
    forall j | n <= j < n + len {
      buf[j] := page[at + (j - n)];
    }
  }

  // ------------------------------------------------------------------ what a write keeps

  /** Bytes of the old file outside the range written. */
  predicate Outside(dataLen: nat, offset: nat, n: nat, i: nat) {
    i < dataLen && !(offset <= i < offset + n)
  }

  /** No page loses bytes: each page the write covers only partly is resident, or passes the kernel's test. */
  ghost predicate KeepsPages(pages: Pages, dataLen: nat, offset: nat, n: nat) {
    forall i: nat | Outside(dataLen, offset, n, i) && Touched(offset, n, i / PAGE_SIZE) :: !Lost(pages, dataLen, offset, n, i / PAGE_SIZE)
  }

  /** The old bytes outside the range stay whatever the file behind holds, exactly when no page loses bytes. */
  lemma WriteKeepsIff(pages: Pages, dataLen: nat, offset: nat, data: seq<Byte>)
    ensures KeepsPages(pages, dataLen, offset, |data|) <==>
              forall back: nat -> PageBytes, i: nat | Outside(dataLen, offset, |data|, i) ::
                Written(back, pages, dataLen, offset, data, |data|, i) == Raw(back, pages, i)
  {
    if i: nat :| Outside(dataLen, offset, |data|, i) && Touched(offset, |data|, i / PAGE_SIZE) && Lost(pages, dataLen, offset, |data|, i / PAGE_SIZE) {
      var ones: PageBytes := seq(PAGE_SIZE, _ => 1);
      var back: nat -> PageBytes := (_: nat) => ones;
      assert Written(back, pages, dataLen, offset, data, |data|, i) == 0 && Raw(back, pages, i) == 1;
    }
  }

  /** The file as one sequence. */
  function View(back: nat -> PageBytes, pages: Pages, dataLen: nat): seq<Byte> {
    seq(dataLen, i requires 0 <= i < dataLen => Raw(back, pages, i))
  }

  function Splice(s: seq<Byte>, offset: nat, data: seq<Byte>): seq<Byte>
    requires offset <= |s|
  {
    s[..offset] + data + if offset + |data| < |s| then s[offset + |data|..] else []
  }

  /** A write inside or at the end of the file that loses no page is a splice of the flat sequence. */
  lemma WriteRefines(back: nat -> PageBytes, pages: Pages, pages': Pages, dataLen: nat, offset: nat, data: seq<Byte>)
    requires offset <= dataLen && KeepsPages(pages, dataLen, offset, |data|)
    requires forall i: nat :: Raw(back, pages', i) == Written(back, pages, dataLen, offset, data, |data|, i)
    ensures View(back, pages', if dataLen < offset + |data| then offset + |data| else dataLen) ==
            Splice(View(back, pages, dataLen), offset, data)
  {
    WriteKeepsIff(pages, dataLen, offset, data);
    var n := if dataLen < offset + |data| then offset + |data| else dataLen;
    forall i: nat | i < n ensures Raw(back, pages', i) == Splice(View(back, pages, dataLen), offset, data)[i] {
      if Outside(dataLen, offset, |data|, i) {
        assert Written(back, pages, dataLen, offset, data, |data|, i) == Raw(back, pages, i);
      }
    }
  }

  /** A write that starts in the first page loses nothing. */
  lemma FirstPageKeeps(pages: Pages, dataLen: nat, offset: nat, n: nat)
    requires offset < PAGE_SIZE
    ensures KeepsPages(pages, dataLen, offset, n)
  {
    forall i: nat | Outside(dataLen, offset, n, i) && Touched(offset, n, i / PAGE_SIZE) ensures FilledFirst(dataLen, offset, n, i / PAGE_SIZE) {
      assert offset / PAGE_SIZE == 0;
      BelowMultiple(offset + n);
    }
  }

  lemma BelowMultiple(x: nat)
    requires x > 0
    ensures (x - 1) / PAGE_SIZE < NextMultiple(x)
  {
  }

  /** A write of part of a page other than the first, not in the cache, turns the rest of the page to zeros. */
  lemma SecondPageLoses(back: nat -> PageBytes, i: nat)
    requires PAGE_SIZE < i < 2 * PAGE_SIZE
    ensures Written(back, map[], 2 * PAGE_SIZE, PAGE_SIZE, [7], 1, i) == 0
    ensures !KeepsPages(map[], 2 * PAGE_SIZE, PAGE_SIZE, 1)
  {
    assert Outside(2 * PAGE_SIZE, PAGE_SIZE, 1, i) && Touched(PAGE_SIZE, 1, i / PAGE_SIZE);
    assert Lost(map[], 2 * PAGE_SIZE, PAGE_SIZE, 1, i / PAGE_SIZE);
  }
}
