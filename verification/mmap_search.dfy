/** Searching the ordered area map: where `mmap` places a mapping, which area a
    faulting page belongs to, and which areas an unmap removes. */
module MmapSearch {
  import opened Sv39
  import opened AddressSpace

  /** `MMAP_START`: where the search for a mapping begins, 128 GiB. */
  const MMAP_START: nat := 0x20_0000_0000

  // --------------------------------------------------------- ordered iteration

  ghost predicate Increasing(ks: seq<nat>) {
    forall i, j | 0 <= i < j < |ks| :: ks[i] < ks[j]
  }

  method LeastOf(s: set<nat>) returns (m: nat)
    requires s != {}
    ensures m in s && forall x | x in s :: m <= x
  {
    m :| m in s;
    var rest := s - {m};
    while rest != {}
      invariant m in s && rest <= s
      invariant forall x | x in s && x !in rest :: m <= x
      decreases rest
    {
      var x :| x in rest;
      if x < m { m := x; }
      rest := rest - {x};
    }
  }

  /** The keys of a set in ascending order, as a B-tree iterates over them. */
  method Ascending(s: set<nat>) returns (ks: seq<nat>)
    ensures Increasing(ks) && |ks| == |s|
    ensures forall k :: k in ks <==> k in s
  {
    ks := [];
    var rest := s;
    while rest != {}
      invariant rest <= s && Increasing(ks) && |ks| + |rest| == |s|
      invariant forall k :: k in ks <==> k in s - rest
      invariant forall k, r | k in ks && r in rest :: k < r
      decreases rest
    {
      var m := LeastOf(rest);
      assert m in rest;
      forall i | 0 <= i < |ks| ensures ks[i] < m { assert ks[i] in ks; }
      ks := ks + [m];
      rest := rest - {m};
    }
  }

  /** The position of the first key above `x`: a cursor at `lower_bound(Excluded(x))`. */
  method FirstAbove(ks: seq<nat>, x: nat) returns (i: nat)
    requires Increasing(ks)
    ensures i <= |ks|
    ensures forall j | 0 <= j < i :: ks[j] <= x
    ensures forall j | i <= j < |ks| :: ks[j] > x
  {
    i := 0;
    while i < |ks| && ks[i] <= x
      invariant i <= |ks| && forall j | 0 <= j < i :: ks[j] <= x
    {
      i := i + 1;
    }
  }

  /** The position of the first key at or above `x`: a cursor at `lower_bound(Included(x))`. */
  method FirstAt(ks: seq<nat>, x: nat) returns (i: nat)
    requires Increasing(ks)
    ensures i <= |ks|
    ensures forall j | 0 <= j < i :: ks[j] < x
    ensures forall j | i <= j < |ks| :: ks[j] >= x
  {
    i := 0;
    while i < |ks| && ks[i] < x
      invariant i <= |ks| && forall j | 0 <= j < i :: ks[j] < x
    {
      i := i + 1;
    }
  }

  // ------------------------------------------------------------- mmap placement

  datatype Placement = Placed(start: nat, end: nat) | Einval | Unsupported | Enomem

  /** A mapping of `len` bytes at page `p` ends inside the user half and meets no area. */
  ghost predicate Fits(areas: Areas, p: nat, len: nat) {
    && p * PAGE_SIZE + len <= LOW_END
    && FreeRange(areas, p, VpnCeil(p * PAGE_SIZE + len))
  }

  function HintPage(addr: nat): nat {
    VpnFloor(if addr < MMAP_START then MMAP_START else addr)
  }

  /** First fit from `hint`: the lowest page that fits, or no page fits. */
  ghost predicate FirstFit(areas: Areas, hint: nat, len: nat, r: Placement) {
    match r
    case Placed(p, end) =>
      && hint <= p && Fits(areas, p, len) && end == VpnCeil(p * PAGE_SIZE + len)
      && forall q | hint <= q < p :: !Fits(areas, q, len)
    case Enomem => forall q | hint <= q :: !Fits(areas, q, len)
    case _ => false
  }

  /** The end address as `usize` addition computes it. */
  function EndAddr(p: nat, len: nat): nat { (p * PAGE_SIZE + len) % WORD }

  /** The end address computed from page `p` does not wrap around, or still lies above the user half. */
  predicate SaneEnd(p: nat, len: nat) {
    p * PAGE_SIZE + len < WORD || EndAddr(p, len) > LOW_END
  }

  /** `len` is small enough for the hint and for the end of every area the search may try. */
  ghost predicate SaneLength(areas: Areas, hint: nat, len: nat) {
    && SaneEnd(hint, len)
    && forall k | k in areas && areas[k].end >= hint :: SaneEnd(areas[k].end, len)
  }

  lemma EndAddrCases(p: nat, len: nat)
    requires p * PAGE_SIZE < WORD && len < WORD
    ensures p * PAGE_SIZE + len < WORD ==> EndAddr(p, len) == p * PAGE_SIZE + len
    ensures p * PAGE_SIZE + len >= WORD ==> EndAddr(p, len) < p * PAGE_SIZE
  {
  }

  /** A length that wraps for some start fits nowhere. */
  lemma InsaneFitsNowhere(areas: Areas, hint: nat, len: nat)
    requires AllOk(areas) && hint * PAGE_SIZE < WORD && 0 < len < WORD
    requires !SaneLength(areas, hint, len)
    ensures forall q | hint <= q :: !Fits(areas, q, len)
  {
    if SaneEnd(hint, len) {
      var k :| k in areas && areas[k].end >= hint && !SaneEnd(areas[k].end, len);
      assert AreaOk(k, areas[k]);
      EndAddrCases(areas[k].end, len);
    } else {
      EndAddrCases(hint, len);
    }
  }

  /** The largest page the search tries decides whether the length is sane. */
  lemma LastCandidateDecides(areas: Areas, hint: nat, len: nat, last: nat)
    requires AllOk(areas) && hint * PAGE_SIZE < WORD && 0 < len < WORD
    requires hint <= last && forall k | k in areas :: areas[k].end <= last
    requires last != hint ==> last <= LOW_VPN
    requires SaneEnd(last, len)
    ensures SaneLength(areas, hint, len)
  {
    if last != hint { EndAddrCases(last, len); }
    forall k | k in areas && areas[k].end >= hint ensures SaneEnd(areas[k].end, len) {
      assert AreaOk(k, areas[k]);
      if last == hint && areas[k].end != hint { assert false; }
    }
  }

  /** `p` is a page the search may try: the hint, or the end of an area at or above it. */
  ghost predicate Candidate(areas: Areas, hint: nat, p: nat) {
    p == hint || (hint < p && exists k :: k in areas && areas[k].end == p)
  }

  lemma CandidateBound(areas: Areas, hint: nat, p: nat)
    requires AllOk(areas) && Candidate(areas, hint, p) && hint * PAGE_SIZE < WORD
    ensures hint <= p && p * PAGE_SIZE < WORD && (p != hint ==> p <= LOW_VPN)
  {
    if p != hint {
      var k :| k in areas && areas[k].end == p;
      assert AreaOk(k, areas[k]);
    }
  }

  /** No page before the end of an area fits when the gap before the area is too small. */
  lemma GapTooSmall(areas: Areas, k: nat, start: nat, len: nat)
    requires k in areas && AreaOk(k, areas[k]) && 0 < len
    requires start >= k || start * PAGE_SIZE + len > k * PAGE_SIZE
    ensures forall q | start <= q < areas[k].end :: !Fits(areas, q, len)
  {
    forall q | start <= q < areas[k].end ensures !Fits(areas, q, len) {
      assert VpnCeil(q * PAGE_SIZE + len) > k;
    }
  }

  /** Placing at a candidate whose computed end lies in the user half is first fit exactly when the length is sane. */
  lemma PlacedIff(areas: Areas, hint: nat, len: nat, p: nat)
    requires AllOk(areas) && hint * PAGE_SIZE < WORD && 0 < len < WORD
    requires Candidate(areas, hint, p) && EndAddr(p, len) <= LOW_END
    requires p * PAGE_SIZE + len < WORD ==> FreeRange(areas, p, VpnCeil(p * PAGE_SIZE + len))
    requires forall q | hint <= q < p :: !Fits(areas, q, len)
    ensures FirstFit(areas, hint, len, Placed(p, VpnCeil(EndAddr(p, len)))) <==> SaneLength(areas, hint, len)
  {
    CandidateBound(areas, hint, p);
    EndAddrCases(p, len);
    if SaneLength(areas, hint, len) {
      assert SaneEnd(p, len);
    } else {
      InsaneFitsNowhere(areas, hint, len);
    }
  }

  /** What the cursor at position `i` with candidate `start` has established. */
  ghost predicate Searched(areas: Areas, ks: seq<nat>, hint: nat, len: nat, i: nat, start: nat) {
    && i <= |ks| && Candidate(areas, hint, start)
    && (forall j | 0 <= j < |ks| :: ks[j] in areas)
    && (forall j | 0 <= j < i :: areas[ks[j]].end <= start)
    && (forall j | i <= j < |ks| :: start <= ks[j])
    && (forall q | hint <= q < start :: !Fits(areas, q, len))
  }

  lemma SearchBegins(areas: Areas, ks: seq<nat>, hint: nat, len: nat, i: nat, start: nat)
    requires AllOk(areas) && Disjoint(areas) && Increasing(ks) && 0 < len
    requires forall k :: k in ks <==> k in areas
    requires i <= |ks| && (forall j | 0 <= j < i :: ks[j] <= hint) && (forall j | i <= j < |ks| :: ks[j] > hint)
    requires start == if i > 0 && hint < areas[ks[i - 1]].end then areas[ks[i - 1]].end else hint
    ensures Searched(areas, ks, hint, len, i, start)
  {
    assert forall j | 0 <= j < |ks| :: ks[j] in areas && AreaOk(ks[j], areas[ks[j]]);
    if i > 0 { GapTooSmall(areas, ks[i - 1], hint, len); }
    forall j | 0 <= j < i ensures areas[ks[j]].end <= start {
      if j < i - 1 { assert areas[ks[j]].end <= ks[i - 1]; }
    }
  }

  lemma SearchSteps(areas: Areas, ks: seq<nat>, hint: nat, len: nat, i: nat, start: nat)
    requires AllOk(areas) && Disjoint(areas) && Increasing(ks) && 0 < len
    requires Searched(areas, ks, hint, len, i, start) && i < |ks|
    requires start * PAGE_SIZE + len > ks[i] * PAGE_SIZE
    ensures Searched(areas, ks, hint, len, i + 1, areas[ks[i]].end)
  {
    assert AreaOk(ks[i], areas[ks[i]]);
    GapTooSmall(areas, ks[i], start, len);
    assert Candidate(areas, hint, areas[ks[i]].end);
  }

  lemma SearchedFree(areas: Areas, ks: seq<nat>, hint: nat, len: nat, i: nat, start: nat, end: nat)
    requires AllOk(areas) && Increasing(ks) && (forall k :: k in ks <==> k in areas)
    requires Searched(areas, ks, hint, len, i, start) && (i < |ks| ==> end <= ks[i])
    ensures FreeRange(areas, start, end)
  {
    forall k | k in areas ensures areas[k].end <= start || end <= areas[k].start {
      assert AreaOk(k, areas[k]);
      var j :| 0 <= j < |ks| && ks[j] == k;
    }
  }

  /** What a search starts from: the areas, their keys in order, and a hint and a length in range. */
  ghost predicate Searchable(areas: Areas, ks: seq<nat>, hint: nat, len: nat) {
    && AllOk(areas) && Disjoint(areas) && Increasing(ks) && (forall k :: k in ks <==> k in areas)
    && hint * PAGE_SIZE < WORD && 0 < len < WORD
  }

  /** The range ends before the next area: it is taken. */
  lemma PlacedBefore(areas: Areas, ks: seq<nat>, hint: nat, len: nat, i: nat, start: nat)
    requires Searchable(areas, ks, hint, len) && Searched(areas, ks, hint, len, i, start) && i < |ks|
    requires EndAddr(start, len) <= areas[ks[i]].start * PAGE_SIZE
    ensures FirstFit(areas, hint, len, Placed(start, VpnCeil(EndAddr(start, len)))) <==> SaneLength(areas, hint, len)
  {
    assert AreaOk(ks[i], areas[ks[i]]);
    CandidateBound(areas, hint, start);
    EndAddrCases(start, len);
    if start * PAGE_SIZE + len < WORD {
      SearchedFree(areas, ks, hint, len, i, start, VpnCeil(EndAddr(start, len)));
    }
    PlacedIff(areas, hint, len, start);
  }

  /** It does not: the search goes on behind that area. */
  lemma PassedBy(areas: Areas, ks: seq<nat>, hint: nat, len: nat, i: nat, start: nat)
    requires Searchable(areas, ks, hint, len) && Searched(areas, ks, hint, len, i, start) && i < |ks|
    requires EndAddr(start, len) > areas[ks[i]].start * PAGE_SIZE
    ensures Searched(areas, ks, hint, len, i + 1, areas[ks[i]].end)
  {
    assert AreaOk(ks[i], areas[ks[i]]);
    CandidateBound(areas, hint, start);
    EndAddrCases(start, len);
    SearchSteps(areas, ks, hint, len, i, start);
  }

  /** Behind every area, a range that ends in the user half is taken. */
  lemma PlacedBehind(areas: Areas, ks: seq<nat>, hint: nat, len: nat, start: nat)
    requires Searchable(areas, ks, hint, len) && Searched(areas, ks, hint, len, |ks|, start) && EndAddr(start, len) <= LOW_END
    ensures FirstFit(areas, hint, len, Placed(start, VpnCeil(EndAddr(start, len)))) <==> SaneLength(areas, hint, len)
  {
    SearchedFree(areas, ks, hint, len, |ks|, start, VpnCeil(start * PAGE_SIZE + len));
    PlacedIff(areas, hint, len, start);
  }

  /** And where it does not, there is no room. */
  lemma NoRoomBehind(areas: Areas, ks: seq<nat>, hint: nat, len: nat, start: nat)
    requires Searchable(areas, ks, hint, len) && Searched(areas, ks, hint, len, |ks|, start) && EndAddr(start, len) > LOW_END
    ensures FirstFit(areas, hint, len, Enomem) <==> SaneLength(areas, hint, len)
  {
    CandidateBound(areas, hint, start);
    EndAddrCases(start, len);
    forall k | k in areas ensures areas[k].end <= start {
      var j :| 0 <= j < |ks| && ks[j] == k;
    }
    LastCandidateDecides(areas, hint, len, start);
  }

  /** Where an anonymous or file mapping goes. With `MAP_FIXED` nothing is mapped. Without it the
      result is first fit exactly when no end address the search computes wraps around. */
  method TryFindMmapArea(areas: Areas, addr: nat, len: nat, fixed: bool) returns (r: Placement)
    requires AllOk(areas) && Disjoint(areas)
    requires addr < WORD && 0 < len < WORD
    ensures fixed ==> r == if addr % PAGE_SIZE != 0 then Einval else Unsupported
    ensures !fixed ==> (FirstFit(areas, HintPage(addr), len, r) <==> SaneLength(areas, HintPage(addr), len))
  {
    if fixed {
      if addr % PAGE_SIZE != 0 { return Einval; }
      return Unsupported;
    }
    r := Search(areas, HintPage(addr), len);
  }

  method Search(areas: Areas, hint: nat, len: nat) returns (r: Placement)
    requires AllOk(areas) && Disjoint(areas) && hint * PAGE_SIZE < WORD && 0 < len < WORD
    ensures FirstFit(areas, hint, len, r) <==> SaneLength(areas, hint, len)
  {
    hide FirstFit, SaneLength, AllOk, Disjoint, Searchable, Searched, VpnCeil;
    var ks, i, start := LowerBound(areas, hint, len);
    while i < |ks|
      invariant i <= |ks| && Searched(areas, ks, hint, len, i, start)
      decreases |ks| - i
    {
      KeyKnown(areas, ks, hint, len, i, start);
      var area := areas[ks[i]];
      var endAddr := EndAddr(start, len);
      if endAddr <= area.start * PAGE_SIZE {
        PlacedBefore(areas, ks, hint, len, i, start);
        return Placed(start, VpnCeil(endAddr));
      }
      PassedBy(areas, ks, hint, len, i, start);
      start := area.end;
      i := i + 1;
    }
    var endAddr := EndAddr(start, len);
    if endAddr <= LOW_END {
      PlacedBehind(areas, ks, hint, len, start);
      return Placed(start, VpnCeil(endAddr));
    }
    NoRoomBehind(areas, ks, hint, len, start);
    r := Enomem;
  }

  lemma KeyKnown(areas: Areas, ks: seq<nat>, hint: nat, len: nat, i: nat, start: nat)
    requires Searched(areas, ks, hint, len, i, start) && i < |ks|
    ensures ks[i] in areas
  {
  }

  /** The cursor at the first area above the hint, and the first page to try: the hint, or the end of the area on it. */
  method LowerBound(areas: Areas, hint: nat, len: nat) returns (ks: seq<nat>, i: nat, start: nat)
    requires AllOk(areas) && Disjoint(areas) && hint * PAGE_SIZE < WORD && 0 < len < WORD
    ensures Searchable(areas, ks, hint, len) && i <= |ks| && Searched(areas, ks, hint, len, i, start)
  {
    hide AllOk, Disjoint, Searched;
    ks := Ascending(areas.Keys);
    i := FirstAbove(ks, hint);
    start := hint;
    if i > 0 {
      var prev := areas[ks[i - 1]];
      start := if start < prev.end then prev.end else start;
    }
    SearchBegins(areas, ks, hint, len, i, start);
  }

  /** With no areas at all, a length of one byte less than the address space is placed, though it fits nowhere. */
  lemma LengthCanWrap()
    ensures !SaneLength(map[], HintPage(0), WORD - 1)
    ensures !Fits(map[], HintPage(0), WORD - 1) && EndAddr(HintPage(0), WORD - 1) <= LOW_END
  {
    assert HintPage(0) == 0x200_0000;
  }

  // ---------------------------------------------------------- area of a page

  datatype Owner = At(k: nat) | Nowhere

  /** The area a page lies in: the last one that starts at or before it, if it reaches that far. */
  method FindArea(areas: Areas, vpn: nat) returns (r: Owner)
    requires AllOk(areas) && Disjoint(areas)
    ensures r.At? ==> r.k in areas && areas[r.k].start <= vpn < areas[r.k].end
    ensures r.Nowhere? ==> forall k | k in areas :: !(areas[k].start <= vpn < areas[k].end)
  {
    var ks := Ascending(areas.Keys);
    var i := FirstAbove(ks, vpn);
    r := Nowhere;
    if i > 0 {
      assert AreaOk(ks[i - 1], areas[ks[i - 1]]);
      if vpn < areas[ks[i - 1]].end {
        return At(ks[i - 1]);
      }
    }
    forall k | k in areas ensures !(areas[k].start <= vpn < areas[k].end) {
      assert AreaOk(k, areas[k]);
      var j :| 0 <= j < |ks| && ks[j] == k;
      if j + 1 < i { assert areas[k].end <= ks[i - 1]; }
    }
  }

  // ------------------------------------------------------- areas of an unmap

  datatype UnmapPlan = Remove(keys: seq<nat>) | Todo

  /** What a scan that stands before position `i` has collected. */
  ghost predicate Collected(areas: Areas, ks: seq<nat>, lo: nat, hi: nat, i: nat, out: seq<nat>) {
    && i <= |ks|
    && (forall j | 0 <= j < |ks| :: ks[j] in areas)
    && (forall j | 0 <= j < i :: !Straddles(areas[ks[j]], lo, hi))
    && (forall j | 0 <= j < i && ks[j] in Inside(areas, lo, hi) :: ks[j] in out)
    && (forall k | k in out :: k in Inside(areas, lo, hi))
    && Increasing(out)
    && (forall k, j | k in out && i <= j < |ks| :: k < ks[j])
  }

  lemma CollectAdd(areas: Areas, ks: seq<nat>, lo: nat, hi: nat, i: nat, out: seq<nat>)
    requires Collected(areas, ks, lo, hi, i, out) && i < |ks| && Increasing(ks) && ks[i] in Inside(areas, lo, hi)
    ensures Collected(areas, ks, lo, hi, i + 1, out + [ks[i]])
  {
    forall j | 0 <= j < |out| ensures out[j] < ks[i] { assert out[j] in out; }
  }

  lemma CollectDone(areas: Areas, ks: seq<nat>, lo: nat, hi: nat, i: nat, out: seq<nat>)
    requires Collected(areas, ks, lo, hi, i, out) && (forall k :: k in ks <==> k in areas) && AllOk(areas)
    requires Increasing(ks) && (i < |ks| ==> hi <= ks[i])
    ensures forall k | k in areas :: !Straddles(areas[k], lo, hi) && (k in Inside(areas, lo, hi) ==> k in out)
  {
    forall k | k in areas ensures !Straddles(areas[k], lo, hi) && (k in Inside(areas, lo, hi) ==> k in out) {
      var j :| 0 <= j < |ks| && ks[j] == k;
      assert AreaOk(k, areas[k]);
    }
  }

  lemma CollectBegins(areas: Areas, ks: seq<nat>, lo: nat, hi: nat, i: nat)
    requires AllOk(areas) && Disjoint(areas) && Increasing(ks) && lo <= hi && (forall k :: k in ks <==> k in areas)
    requires i == 0 || (i < |ks| && ks[i] <= lo)
    ensures Collected(areas, ks, lo, hi, i, [])
  {
    forall j | 0 <= j < i ensures areas[ks[j]].end <= lo && AreaOk(ks[j], areas[ks[j]]) {
      assert ks[j] in ks && ks[i] in ks && ks[j] < ks[i];
      assert AreaOk(ks[i], areas[ks[i]]);
    }
    assert forall j | 0 <= j < |ks| :: ks[j] in ks;
  }

  lemma CollectSkip(areas: Areas, ks: seq<nat>, lo: nat, hi: nat, i: nat, out: seq<nat>)
    requires Collected(areas, ks, lo, hi, i, out) && i < |ks|
    requires !Straddles(areas[ks[i]], lo, hi) && ks[i] !in Inside(areas, lo, hi)
    ensures Collected(areas, ks, lo, hi, i + 1, out)
  {
  }

  /** The areas an unmap of `lo..hi` removes: exactly those inside the range. The kernel stops
      before changing anything exactly when some area straddles the range. */
  method PlanUnmap(areas: Areas, lo: nat, hi: nat) returns (r: UnmapPlan)
    requires AllOk(areas) && Disjoint(areas) && lo <= hi
    ensures r.Todo? <==> exists k :: k in areas && Straddles(areas[k], lo, hi)
    ensures r.Remove? ==> Increasing(r.keys) && forall k :: k in r.keys <==> k in Inside(areas, lo, hi)
  {
    var ks := Ascending(areas.Keys);
    var i := FirstAt(ks, lo);
    if i > 0 {
      i := i - 1;
    }
    CollectBegins(areas, ks, lo, hi, i);
    var out := [];
    while i < |ks|
      invariant Collected(areas, ks, lo, hi, i, out)
      decreases |ks| - i
    {
      var area := areas[ks[i]];
      assert AreaOk(ks[i], area);
      if lo <= area.start && area.end <= hi {
        CollectAdd(areas, ks, lo, hi, i, out);
        out := out + [area.start];
      } else if area.end <= lo {
        CollectSkip(areas, ks, lo, hi, i, out);
      } else if area.start >= hi {
        break;
      } else {
        return Todo;
      }
      i := i + 1;
    }
    CollectDone(areas, ks, lo, hi, i, out);
    r := Remove(out);
  }
}
