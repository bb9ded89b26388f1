/** The three-level tree of table frames as a value: what a walk finds, when the
    tree is well formed, and what linking a fresh table or storing one leaf does
    to every translation. */
module PageTree {
  import opened Sv39

  /** Contents of the frames in use as tables, by physical page number. */
  type Tables = map<nat, seq<nat>>

  /** Every page number translates alike. */
  ghost predicate SameLeaves(t: Tables, t': Tables, root: nat) {
    forall v: nat :: Leaf(t', root, v) == Leaf(t, root, v)
  }

  /** Every page number but one translates alike. */
  ghost predicate SameLeavesBut(t: Tables, t': Tables, root: nat, vpn: nat) {
    forall v: nat | v < VPN_LIMIT && v != vpn :: Leaf(t', root, v) == Leaf(t, root, v)
  }

  /** Where a table hangs: under a root line, or under line `j` of that table. */
  datatype Slot = Mid(line: nat) | Low(line: nat, j: nat)

  /** Which place each known table frame was linked at. */
  type Slots = map<nat, Slot>

  function Entry(t: Tables, p: nat, i: nat): nat {
    if p in t && i < |t[p]| then t[p][i] else 0
  }

  /** The leaf entry a hardware walk reaches for `vpn`, 0 when a step is invalid. */
  function Leaf(t: Tables, root: nat, vpn: nat): nat {
    var e1 := Entry(t, root, I0(vpn));
    if !PteValid(e1) then 0 else
    var e2 := Entry(t, PtePpn(e1), I1(vpn));
    if !PteValid(e2) then 0 else
    Entry(t, PtePpn(e2), I2(vpn))
  }

  /** The translation of the user half as a flat map. */
  ghost function Flat(t: Tables, root: nat): map<nat, Xlat> {
    map v: nat | v < LOW_VPN && PteValid(Leaf(t, root, v)) :: Decode(Leaf(t, root, v))
  }

  ghost predicate IsTable(t: Tables, p: nat) {
    p in t && |t[p]| == PTE_PER_PAGE
  }

  /** Every table reached by a path carries that path as its slot, so no table is
      reached by two paths. */
  ghost predicate TreeOk(t: Tables, root: nat, slot: Slots) {
    && IsTable(t, root) && root !in slot && root < PPN_LIMIT
    && (forall p | p in slot :: IsTable(t, p) && p < PPN_LIMIT)
    && (forall i | 0 <= i < PTE_PER_PAGE && PteValid(t[root][i]) :: HasSlot(slot, PtePpn(t[root][i]), Mid(i)))
    && (forall i, j | 0 <= i < PTE_PER_PAGE && 0 <= j < PTE_PER_PAGE && PteValid(t[root][i]) ::
          PteValid(Entry(t, PtePpn(t[root][i]), j)) ==>
            HasSlot(slot, PtePpn(Entry(t, PtePpn(t[root][i]), j)), Low(i, j)))
  }

  ghost predicate HasSlot(slot: Slots, p: nat, s: Slot) {
    p in slot && slot[p] == s
  }

  /** The table at a path, if the path is valid. */
  ghost predicate Reaches(t: Tables, root: nat, s: Slot, p: nat) {
    var e1 := Entry(t, root, s.line);
    && s.line < PTE_PER_PAGE
    && PteValid(e1)
    && match s
       case Mid(_) => PtePpn(e1) == p
       case Low(_, j) => j < PTE_PER_PAGE && PteValid(Entry(t, PtePpn(e1), j)) && PtePpn(Entry(t, PtePpn(e1), j)) == p
  }

  lemma NoSharing(t: Tables, root: nat, slot: Slots, a: Slot, b: Slot, p: nat)
    requires TreeOk(t, root, slot)
    requires Reaches(t, root, a, p) && Reaches(t, root, b, p)
    ensures a == b && p != root
  {
    match a { case Mid(i) => case Low(i, j) => assert PteValid(Entry(t, PtePpn(t[root][i]), j)); }
    match b { case Mid(i) => case Low(i, j) => assert PteValid(Entry(t, PtePpn(t[root][i]), j)); }
  }

  function EmptyTable(): (s: seq<nat>)
    ensures |s| == PTE_PER_PAGE
    ensures forall i | 0 <= i < |s| :: s[i] == 0
  {
    seq(PTE_PER_PAGE, _ => 0)
  }

  lemma MidReached(t: Tables, root: nat, slot: Slots, i: nat)
    requires TreeOk(t, root, slot) && i < PTE_PER_PAGE && PteValid(t[root][i])
    ensures Reaches(t, root, Mid(i), PtePpn(t[root][i]))
    ensures HasSlot(slot, PtePpn(t[root][i]), Mid(i)) && IsTable(t, PtePpn(t[root][i]))
  {
  }

  lemma LowReached(t: Tables, root: nat, slot: Slots, i: nat, m: nat, j: nat)
    requires TreeOk(t, root, slot) && Reaches(t, root, Mid(i), m) && j < PTE_PER_PAGE && PteValid(Entry(t, m, j))
    ensures Reaches(t, root, Low(i, j), PtePpn(Entry(t, m, j)))
    ensures HasSlot(slot, PtePpn(Entry(t, m, j)), Low(i, j)) && IsTable(t, PtePpn(Entry(t, m, j)))
  {
  }

  /** Hang the fresh, empty table `f` under root line `i`. */
  function LinkMid(t: Tables, root: nat, i: nat, f: nat): Tables
    requires root in t && i < |t[root]|
  {
    t[f := EmptyTable()][root := t[root][i := PteNew(f, PTE_V)]]
  }

  lemma LinkMidOk(t: Tables, root: nat, slot: Slots, i: nat, f: nat)
    requires TreeOk(t, root, slot) && i < PTE_PER_PAGE && !PteValid(t[root][i])
    requires f !in t && f < PPN_LIMIT
    ensures TreeOk(LinkMid(t, root, i, f), root, slot[f := Mid(i)])
    ensures SameLeaves(t, LinkMid(t, root, i, f), root)
  {
    PteRoundTrip(f, PTE_V);
    var t' := LinkMid(t, root, i, f);
    assert forall p, k: nat | p in slot :: Entry(t', p, k) == Entry(t, p, k);
    assert forall k: nat :: Entry(t', f, k) == 0;
    assert forall k: nat | k != i :: Entry(t', root, k) == Entry(t, root, k);
    forall v: nat ensures Leaf(t', root, v) == Leaf(t, root, v) {
      var i0 := I0(v);
      if i0 != i && PteValid(t[root][i0]) {
        assert HasSlot(slot, PtePpn(t[root][i0]), Mid(i0));
        var e2 := Entry(t, PtePpn(t[root][i0]), I1(v));
        if PteValid(e2) {
          assert HasSlot(slot, PtePpn(e2), Low(i0, I1(v)));
        }
      }
    }
  }

  /** Hang the fresh, empty table `f` under line `j` of the middle table `m`. */
  function LinkLow(t: Tables, m: nat, j: nat, f: nat): Tables
    requires m in t && j < |t[m]|
  {
    t[f := EmptyTable()][m := t[m][j := PteNew(f, PTE_V)]]
  }

  lemma LinkLowOk(t: Tables, root: nat, slot: Slots, i: nat, j: nat, f: nat)
    requires TreeOk(t, root, slot) && i < PTE_PER_PAGE && j < PTE_PER_PAGE
    requires PteValid(t[root][i])
    requires IsTable(t, PtePpn(t[root][i])) && !PteValid(t[PtePpn(t[root][i])][j])
    requires f !in t && f < PPN_LIMIT
    ensures TreeOk(LinkLow(t, PtePpn(t[root][i]), j, f), root, slot[f := Low(i, j)])
    ensures SameLeaves(t, LinkLow(t, PtePpn(t[root][i]), j, f), root)
  {
    PteRoundTrip(f, PTE_V);
    var m := PtePpn(t[root][i]);
    assert HasSlot(slot, m, Mid(i));
    var t' := LinkLow(t, m, j, f);
    assert t'[root] == t[root];
    assert forall p, k: nat | p in slot && p != m :: Entry(t', p, k) == Entry(t, p, k);
    assert forall k: nat :: Entry(t', f, k) == 0;
    assert forall k: nat | k != j :: Entry(t', m, k) == Entry(t, m, k);
    forall v: nat ensures Leaf(t', root, v) == Leaf(t, root, v) {
      var i0, i1 := I0(v), I1(v);
      if PteValid(t[root][i0]) {
        var c := PtePpn(t[root][i0]);
        assert HasSlot(slot, c, Mid(i0));
        var e2 := Entry(t, c, i1);
        if PteValid(e2) {
          assert HasSlot(slot, PtePpn(e2), Low(i0, i1));
          assert PtePpn(e2) != m;
          assert Entry(t', c, i1) == e2;
        }
      }
    }
  }

  /** Overwrite entry `k` of table `p`. */
  function Stored(t: Tables, p: nat, k: nat, e: nat): Tables
    requires p in t && k < |t[p]|
  {
    var row: seq<nat> := t[p][k := e];
    t[p := row]
  }

  /** Table `p` is where the walk of `vpn` stands after `i` steps. */
  ghost predicate OnPath(t: Tables, root: nat, vpn: nat, i: nat, p: nat) {
    match i
    case 0 => p == root
    case 1 => Reaches(t, root, Mid(I0(vpn)), p)
    case _ => Reaches(t, root, Low(I0(vpn), I1(vpn)), p)
  }

  lemma BrokenWalk(t: Tables, root: nat, slot: Slots, vpn: nat, i: nat, p: nat)
    requires TreeOk(t, root, slot) && i < 2 && OnPath(t, root, vpn, i, p)
    requires !PteValid(Entry(t, p, if i == 0 then I0(vpn) else I1(vpn)))
    ensures Leaf(t, root, vpn) == 0
  {
  }

  /** The low table that holds the leaf of `vpn`. */
  ghost predicate LeafTable(t: Tables, root: nat, vpn: nat, p: nat) {
    Reaches(t, root, Low(I0(vpn), I1(vpn)), p)
  }

  lemma StoreLeaf(t: Tables, root: nat, slot: Slots, vpn: nat, p: nat, e: nat)
    requires TreeOk(t, root, slot) && LeafTable(t, root, vpn, p)
    ensures HasSlot(slot, p, Low(I0(vpn), I1(vpn))) && IsTable(t, p)
    ensures TreeOk(Stored(t, p, I2(vpn), e), root, slot)
    ensures Leaf(Stored(t, p, I2(vpn), e), root, vpn) == e
    ensures vpn < VPN_LIMIT ==> SameLeavesBut(t, Stored(t, p, I2(vpn), e), root, vpn)
  {
    assert PteValid(Entry(t, PtePpn(t[root][I0(vpn)]), I1(vpn)));
    var t' := Stored(t, p, I2(vpn), e);
    assert t'[root] == t[root];
    assert forall q, k: nat | q in slot && q != p :: Entry(t', q, k) == Entry(t, q, k);
    forall v: nat | v < VPN_LIMIT && vpn < VPN_LIMIT && v != vpn
      ensures Leaf(t', root, v) == Leaf(t, root, v)
    {
      var i0, i1 := I0(v), I1(v);
      if PteValid(t[root][i0]) {
        var c := PtePpn(t[root][i0]);
        assert HasSlot(slot, c, Mid(i0));
        var e2 := Entry(t, c, i1);
        if PteValid(e2) {
          assert HasSlot(slot, PtePpn(e2), Low(i0, i1));
          if PtePpn(e2) == p && I2(v) == I2(vpn) {
            IndexesInjective(v, vpn);
          }
        }
      }
    }
  }

  /** Zero the user half of the root and forget the freed tables. */
  function Cleared(t: Tables, root: nat, freed: set<nat>): Tables
    requires root in t && |t[root]| == PTE_PER_PAGE
  {
    t[root := EmptyTable()[..USER_LINES] + t[root][USER_LINES..]] - freed
  }

  lemma ClearedOk(t: Tables, root: nat, slot: Slots, freed: set<nat>)
    requires TreeOk(t, root, slot)
    requires forall p | p in freed :: p in slot && slot[p].line < USER_LINES
    ensures TreeOk(Cleared(t, root, freed), root, slot - freed)
    ensures Flat(Cleared(t, root, freed), root) == map[]
    ensures forall v: nat | I0(v) >= USER_LINES :: Leaf(Cleared(t, root, freed), root, v) == Leaf(t, root, v)
  {
    ClearedTree(t, root, slot, freed);
    hide TreeOk, Cleared, Leaf;
    forall v: nat | v < LOW_VPN ensures Leaf(Cleared(t, root, freed), root, v) == 0 {
      IndexesCompose(v);
      ClearedLow(t, root, slot, freed, v);
    }
    forall v: nat | I0(v) >= USER_LINES ensures Leaf(Cleared(t, root, freed), root, v) == Leaf(t, root, v) {
      ClearedHigh(t, root, slot, freed, v);
    }
  }

  /** Clearing, entry by entry. */
  lemma ClearedEntries(t: Tables, root: nat, slot: Slots, freed: set<nat>)
    requires TreeOk(t, root, slot) && forall p | p in freed :: p in slot
    ensures var t' := Cleared(t, root, freed);
            && IsTable(t', root) && (forall k: nat | k < USER_LINES :: Entry(t', root, k) == 0)
            && (forall k: nat | k >= USER_LINES :: Entry(t', root, k) == Entry(t, root, k))
            && (forall q | q in slot && q !in freed :: q in t' && t'[q] == t[q])
  {
  }

  lemma ClearedLow(t: Tables, root: nat, slot: Slots, freed: set<nat>, v: nat)
    requires TreeOk(t, root, slot) && (forall p | p in freed :: p in slot) && I0(v) < USER_LINES
    ensures Leaf(Cleared(t, root, freed), root, v) == 0
  {
    ClearedEntries(t, root, slot, freed);
    hide Cleared;
  }

  lemma ClearedHigh(t: Tables, root: nat, slot: Slots, freed: set<nat>, v: nat)
    requires TreeOk(t, root, slot) && I0(v) >= USER_LINES
    requires forall p | p in freed :: p in slot && slot[p].line < USER_LINES
    ensures Leaf(Cleared(t, root, freed), root, v) == Leaf(t, root, v)
  {
    ClearedEntries(t, root, slot, freed);
    hide Cleared;
    var i0, i1 := I0(v), I1(v);
    if PteValid(t[root][i0]) {
      MidReached(t, root, slot, i0);
      var c := PtePpn(t[root][i0]);
      if PteValid(Entry(t, c, i1)) { LowReached(t, root, slot, i0, c, i1); }
    }
  }

  lemma ClearedTree(t: Tables, root: nat, slot: Slots, freed: set<nat>)
    requires TreeOk(t, root, slot)
    requires forall p | p in freed :: p in slot && slot[p].line < USER_LINES
    ensures TreeOk(Cleared(t, root, freed), root, slot - freed)
  {
    var t' := Cleared(t, root, freed);
    ClearedEntries(t, root, slot, freed);
    hide Cleared;
    forall i | 0 <= i < PTE_PER_PAGE && PteValid(t'[root][i]) ensures HasSlot(slot - freed, PtePpn(t'[root][i]), Mid(i)) {
      assert Entry(t', root, i) == t[root][i];
    }
    forall i, j | 0 <= i < PTE_PER_PAGE && 0 <= j < PTE_PER_PAGE && PteValid(t'[root][i]) && PteValid(Entry(t', PtePpn(t'[root][i]), j))
      ensures HasSlot(slot - freed, PtePpn(Entry(t', PtePpn(t'[root][i]), j)), Low(i, j))
    {
      assert Entry(t', root, i) == t[root][i];
      MidReached(t, root, slot, i);
      assert Entry(t', PtePpn(t[root][i]), j) == Entry(t, PtePpn(t[root][i]), j);
    }
  }

  /** A tree and its translations depend on nothing but its own tables. */
  lemma TreeFrame(t: Tables, t': Tables, root: nat, slot: Slots)
    requires TreeOk(t, root, slot)
    requires root in t' && t'[root] == t[root]
    requires forall p | p in slot :: p in t' && t'[p] == t[p]
    ensures TreeOk(t', root, slot) && SameLeaves(t, t', root)
  {
    assert forall q, k: nat | q in slot :: Entry(t', q, k) == Entry(t, q, k);
    forall v: nat ensures Leaf(t', root, v) == Leaf(t, root, v) {
      var i0, i1 := I0(v), I1(v);
      if PteValid(t[root][i0]) {
        var c := PtePpn(t[root][i0]);
        assert HasSlot(slot, c, Mid(i0));
        var e2 := Entry(t, c, i1);
        if PteValid(e2) {
          assert HasSlot(slot, PtePpn(e2), Low(i0, i1));
        }
      }
    }
  }

  lemma FlatAfterMap(t: Tables, t': Tables, root: nat, vpn: nat, ppn: nat, perm: Perm)
    requires vpn < LOW_VPN && ppn < PPN_LIMIT && Leaf(t', root, vpn) == PteNew(ppn, LeafFlags(perm))
    requires SameLeavesBut(t, t', root, vpn)
    ensures Flat(t', root) == Flat(t, root)[vpn := Xlat(ppn, LeafFlags(perm))]
  {
    hide Leaf;
    PteRoundTrip(ppn, LeafFlags(perm));
  }

  lemma FlatAfterUnmap(t: Tables, t': Tables, root: nat, vpn: nat)
    requires Leaf(t', root, vpn) == 0
    requires SameLeavesBut(t, t', root, vpn)
    ensures Flat(t', root) == Flat(t, root) - {vpn}
  {
    hide Leaf;
  }

  // ------------------------------------------------ lines shared with the kernel

  /** Root lines of the kernel's own table that every user table copies. */
  predicate KernelLine(i: nat) { i == 508 || i == 510 || i == 511 }

  /** Copy the kernel lines of the table at `kroot` into the table at `root`. */
  ghost predicate SharesKernelLines(t: Tables, root: nat, kroot: nat, t': Tables) {
    && IsTable(t, root) && IsTable(t, kroot) && IsTable(t', root)
    && t'.Keys == t.Keys
    && (forall p | p in t && p != root :: t'[p] == t[p])
    && (forall i | 0 <= i < PTE_PER_PAGE :: t'[root][i] == if KernelLine(i) then t[kroot][i] else t[root][i])
  }

  /** The slots known after sharing: one's own, and the kernel's under the shared lines. */
  ghost function SharedSlots(slot: Slots, kslot: Slots): Slots {
    slot + map p | p in kslot && KernelLine(kslot[p].line) :: kslot[p]
  }

  lemma SharedOk(t: Tables, root: nat, slot: Slots, kroot: nat, kslot: Slots, t': Tables)
    requires TreeOk(t, root, slot) && TreeOk(t, kroot, kslot)
    requires root != kroot && root !in kslot && slot.Keys !! kslot.Keys
    requires SharesKernelLines(t, root, kroot, t')
    ensures TreeOk(t', root, SharedSlots(slot, kslot))
    ensures forall v: nat :: Leaf(t', root, v) == if KernelLine(I0(v)) then Leaf(t, kroot, v) else Leaf(t, root, v)
  {
    var s := SharedSlots(slot, kslot);
    assert forall q, k: nat | q in slot || q in kslot :: Entry(t', q, k) == Entry(t, q, k);
    forall i, j | 0 <= i < PTE_PER_PAGE && 0 <= j < PTE_PER_PAGE && PteValid(t'[root][i])
      ensures HasSlot(s, PtePpn(t'[root][i]), Mid(i))
      ensures PteValid(Entry(t', PtePpn(t'[root][i]), j)) ==>
                HasSlot(s, PtePpn(Entry(t', PtePpn(t'[root][i]), j)), Low(i, j))
    {
      if KernelLine(i) {
        assert HasSlot(kslot, PtePpn(t[kroot][i]), Mid(i));
        if PteValid(Entry(t, PtePpn(t[kroot][i]), j)) {
          assert HasSlot(kslot, PtePpn(Entry(t, PtePpn(t[kroot][i]), j)), Low(i, j));
        }
      } else {
        assert HasSlot(slot, PtePpn(t[root][i]), Mid(i));
        if PteValid(Entry(t, PtePpn(t[root][i]), j)) {
          assert HasSlot(slot, PtePpn(Entry(t, PtePpn(t[root][i]), j)), Low(i, j));
        }
      }
    }
    forall v: nat ensures Leaf(t', root, v) == if KernelLine(I0(v)) then Leaf(t, kroot, v) else Leaf(t, root, v) {
      var r, sl := if KernelLine(I0(v)) then kroot else root, if KernelLine(I0(v)) then kslot else slot;
      if PteValid(t[r][I0(v)]) {
        MidReached(t, r, sl, I0(v));
        if PteValid(Entry(t, PtePpn(t[r][I0(v)]), I1(v))) {
          LowReached(t, r, sl, I0(v), PtePpn(t[r][I0(v)]), I1(v));
        }
      }
    }
  }

  // ------------------------------------------------ growth and ownership

  /** What a step that works under one root line may do to the tables: only the root, the tables
      under that line and fresh frames differ, known tables keep their slots, new ones were free. */
  ghost predicate Grown(t: Tables, s: Slots, free: set<nat>, t': Tables, s': Slots, free': set<nat>, root: nat, line: nat) {
    && (forall p | p in t && p != root && !(p in s && s[p].line == line) :: p in t' && t'[p] == t[p])
    && t.Keys <= t'.Keys <= t.Keys + free
    && (forall p | p in s :: p in s' && s'[p] == s[p])
    && s'.Keys <= s.Keys + free
    && (forall p | p in s' && p !in s :: s'[p].line == line)
    && free' <= free
    && (forall i: nat | i != line :: Entry(t', root, i) == Entry(t, root, i))
  }

  lemma GrownTransitive(t: Tables, s: Slots, f: set<nat>, t1: Tables, s1: Slots, f1: set<nat>, t2: Tables, s2: Slots, f2: set<nat>, root: nat, line: nat)
    requires Grown(t, s, f, t1, s1, f1, root, line) && Grown(t1, s1, f1, t2, s2, f2, root, line)
    requires f !! t.Keys && s.Keys <= t.Keys
    ensures Grown(t, s, f, t2, s2, f2, root, line)
  {
  }

  lemma GrownNot(t: Tables, s: Slots, f: set<nat>, root: nat, line: nat)
    ensures Grown(t, s, f, t, s, f, root, line) && SameLeaves(t, t, root)
  {
  }

  lemma GrownMid(t: Tables, root: nat, slot: Slots, i: nat, f: nat, free: set<nat>)
    requires TreeOk(t, root, slot) && i < PTE_PER_PAGE && f in free && free !! t.Keys
    ensures Grown(t, slot, free, LinkMid(t, root, i, f), slot[f := Mid(i)], free - {f}, root, i)
  {
  }

  lemma GrownLow(t: Tables, root: nat, slot: Slots, i: nat, j: nat, m: nat, f: nat, free: set<nat>)
    requires TreeOk(t, root, slot) && HasSlot(slot, m, Mid(i)) && j < PTE_PER_PAGE && f in free && free !! t.Keys
    ensures Grown(t, slot, free, LinkLow(t, m, j, f), slot[f := Low(i, j)], free - {f}, root, i)
  {
  }

  /** The owned frames are exactly the known tables under the owned lines, each once. */
  ghost predicate FramesOk(slot: Slots, frames: seq<nat>, ownLines: nat) {
    && (forall k | 0 <= k < |frames| :: frames[k] in slot && slot[frames[k]].line < ownLines)
    && (forall p | p in slot && slot[p].line < ownLines :: p in frames)
    && (forall j, k | 0 <= j < k < |frames| :: frames[j] != frames[k])
  }

  lemma FramesTruncated(slot: Slots, frames: seq<nat>, ownLines: nat, freed: set<nat>)
    requires FramesOk(slot, frames, ownLines)
    requires freed == set k | 1 <= k < |frames| :: frames[k]
    ensures FramesOk(slot - freed, if |frames| > 1 then frames[..1] else frames, ownLines)
  {
    var kept := if |frames| > 1 then frames[..1] else frames;
    forall p | p in slot - freed && slot[p].line < ownLines ensures p in kept {
      var k :| 0 <= k < |frames| && frames[k] == p;
      assert k == 0;
    }
  }

  lemma FramesShared(slot: Slots, kslot: Slots, frames: seq<nat>, ownLines: nat)
    requires FramesOk(slot, frames, ownLines) && ownLines <= 508 && slot.Keys !! kslot.Keys
    ensures FramesOk(SharedSlots(slot, kslot), frames, ownLines)
  {
  }

  /** The table frames a page table writes to: its root and the known tables under the user lines. */
  function OwnTables(root: nat, slot: Slots): set<nat> {
    {root} + set p | p in slot && slot[p].line < USER_LINES
  }

  /** The known tables under the other lines: the kernel's, shared by every address space. */
  function KernelTables(slot: Slots): set<nat> {
    set p | p in slot && slot[p].line >= USER_LINES
  }

  lemma GrownOwn(t: Tables, s: Slots, free: set<nat>, t': Tables, s': Slots, free': set<nat>, root: nat, line: nat)
    requires Grown(t, s, free, t', s', free', root, line) && line < USER_LINES
    ensures forall p | p in t && p !in OwnTables(root, s) :: p in t' && t'[p] == t[p]
    ensures OwnTables(root, s) <= OwnTables(root, s') <= OwnTables(root, s) + free
    ensures KernelTables(s') == KernelTables(s)
  {
  }

  /** What clearing the user half owes, table by table. */
  lemma ClearsUser(t: Tables, root: nat, slot: Slots, frames: seq<nat>, freed: set<nat>)
    requires TreeOk(t, root, slot) && FramesOk(slot, frames, USER_LINES) && freed == set k | 1 <= k < |frames| :: frames[k]
    ensures IsTable(t, root) && root !in freed && freed <= t.Keys && (forall p | p in freed :: p < PPN_LIMIT)
    ensures TreeOk(Cleared(t, root, freed), root, slot - freed)
    ensures FramesOk(slot - freed, if |frames| > 1 then frames[..1] else frames, USER_LINES)
    ensures Flat(Cleared(t, root, freed), root) == map[]
    ensures forall v: nat | I0(v) >= USER_LINES :: Leaf(Cleared(t, root, freed), root, v) == Leaf(t, root, v)
    ensures forall p | p in t && p !in OwnTables(root, slot) :: p in Cleared(t, root, freed) && Cleared(t, root, freed)[p] == t[p]
  {
    FreedOwn(root, slot, frames, freed);
    ClearedOk(t, root, slot, freed);
    FramesTruncated(slot, frames, USER_LINES, freed);
    assert root in OwnTables(root, slot);
  }

  /** Tables freed from under the user lines are owned ones, and the kernel's stay. */
  lemma FreedOwn(root: nat, slot: Slots, frames: seq<nat>, freed: set<nat>)
    requires FramesOk(slot, frames, USER_LINES) && freed == set k | 1 <= k < |frames| :: frames[k]
    ensures freed <= OwnTables(root, slot) && OwnTables(root, slot - freed) <= OwnTables(root, slot)
    ensures KernelTables(slot - freed) == KernelTables(slot)
  {
  }

  lemma SameFlat(t: Tables, t': Tables, root: nat)
    requires forall v: nat | v < LOW_VPN :: Leaf(t', root, v) == Leaf(t, root, v)
    ensures Flat(t', root) == Flat(t, root)
  {
  }
}
