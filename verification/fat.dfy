/** The file allocation table: allocation metadata, the allocator, and cluster chains.
    Entry format: section "FAT Data Structure" of the Microsoft FAT32 File System Specification 1.03. */
module Fat {
  import opened Common

  const ENTRY_MASK_END := 0x1000_0000
  const RESERVED_FAT_ENTRY_COUNT := 2
  const END_OF_CHAIN := 0x0fff_ffff
  /** A walk stops at any masked entry from here on. */
  const CHAIN_STOP := 0x0fff_fff8
  const INVALID_ALLOC_META := 0xffff_ffff
  const U32 := 0x1_0000_0000

  /** The low 28 bits of an entry. */
  function Masked(e: nat): nat { e % ENTRY_MASK_END }

  predicate IsFree(entries: seq<nat>, c: nat) {
    RESERVED_FAT_ENTRY_COUNT <= c < |entries| && Masked(entries[c]) == 0
  }

  /** The free clusters below `n`. */
  function FreeBelow(entries: seq<nat>, n: nat): set<nat> {
    set c | RESERVED_FAT_ENTRY_COUNT <= c < n && IsFree(entries, c)
  }

  function FreeSet(entries: seq<nat>): set<nat> { FreeBelow(entries, |entries|) }

  lemma FreeBelowStep(entries: seq<nat>, n: nat)
    requires RESERVED_FAT_ENTRY_COUNT <= n < |entries|
    ensures FreeBelow(entries, n + 1) == FreeBelow(entries, n) + (if IsFree(entries, n) then {n} else {})
    ensures |FreeBelow(entries, n + 1)| == |FreeBelow(entries, n)| + if IsFree(entries, n) then 1 else 0
  {
    assert FreeBelow(entries, n + 1) == FreeBelow(entries, n) + (if IsFree(entries, n) then {n} else {});
  }

  lemma {:induction false} FreeBelowSmall(entries: seq<nat>, n: nat)
    requires n <= |entries|
    ensures |FreeBelow(entries, n)| <= n
  {
    if n > RESERVED_FAT_ENTRY_COUNT {
      FreeBelowSmall(entries, n - 1);
      FreeBelowStep(entries, n - 1);
    } else {
      assert FreeBelow(entries, n) == {};
    }
  }

  // ------------------------------------------------------------------- chains

  ghost predicate InRange(entries: seq<nat>, chain: seq<nat>) {
    forall i | 0 <= i < |chain| :: RESERVED_FAT_ENTRY_COUNT <= chain[i] < |entries|
  }

  /** Each entry of the chain names the next cluster, the last one ends it. */
  ghost predicate Linked(entries: seq<nat>, chain: seq<nat>)
    requires InRange(entries, chain)
  {
    && (forall i | 0 <= i < |chain| - 1 :: Masked(entries[chain[i]]) == chain[i + 1])
    && (|chain| > 0 ==> Masked(entries[chain[|chain| - 1]]) >= CHAIN_STOP)
  }

  ghost predicate IsChain(entries: seq<nat>, chain: seq<nat>) {
    InRange(entries, chain) && Distinct(chain) && Linked(entries, chain)
  }

  /** The clusters a walk visits, from link to link, until a link ends it. */
  ghost predicate Walk(entries: seq<nat>, w: seq<nat>) {
    && (forall i | 0 <= i < |w| :: w[i] < |entries|)
    && (forall i | 0 <= i < |w| - 1 :: Masked(entries[w[i]]) == w[i + 1])
    && (|w| > 0 ==> Masked(entries[w[|w| - 1]]) >= CHAIN_STOP)
  }

  lemma {:induction false} WalkFixed(entries: seq<nat>, a: seq<nat>, b: seq<nat>)
    requires |entries| <= CHAIN_STOP && Walk(entries, a) && Walk(entries, b) && a != [] && b != [] && a[0] == b[0]
    ensures a == b
    decreases |a|
  {
    assert |a| > 1 ==> a[1] == Masked(entries[a[0]]) < CHAIN_STOP;
    assert |b| > 1 ==> b[1] == Masked(entries[b[0]]) < CHAIN_STOP;
    if |a| > 1 {
      WalkFixed(entries, a[1..], b[1..]);
      assert a == [a[0]] + a[1..] && b == [b[0]] + b[1..];
    }
  }

  /** A walk that ends visits no cluster twice: it is a chain unless it runs into the reserved entries. */
  lemma WalkIsChain(entries: seq<nat>, w: seq<nat>)
    requires |entries| <= CHAIN_STOP && Walk(entries, w)
    ensures Distinct(w) && (IsChain(entries, w) <==> forall i | 0 <= i < |w| :: w[i] >= RESERVED_FAT_ENTRY_COUNT)
  {
    forall i, j | 0 <= i < j < |w| ensures w[i] != w[j] {
      if w[i] == w[j] {
        assert Walk(entries, w[i..]) && Walk(entries, w[j..]);
        WalkFixed(entries, w[i..], w[j..]);
        assert false;
      }
    }
  }

  /** The cluster the kernel's loop stands at after `n` turns, as long as it stays in the table. */
  function After(entries: seq<nat>, first: nat, n: nat): nat {
    if n == 0 then first else var c := After(entries, first, n - 1); if c < |entries| then Masked(entries[c]) else c
  }

  /** A loop that comes to an end without leaving the table has made a walk. */
  lemma StopsOnWalk(entries: seq<nat>, first: nat, n: nat)
    requires (forall i | 0 <= i < n :: After(entries, first, i) < |entries|) && After(entries, first, n) >= CHAIN_STOP
    ensures Walk(entries, seq(n, i requires 0 <= i < n => After(entries, first, i)))
  {
    var w := seq(n, i requires 0 <= i < n => After(entries, first, i));
    forall i | 0 <= i < n - 1 ensures Masked(entries[w[i]]) == w[i + 1] {
      assert After(entries, first, i + 1) == Masked(entries[After(entries, first, i)]);
    }
    if n > 0 { assert After(entries, first, n) == Masked(entries[w[n - 1]]); }
  }

  /** A table decides the chain that starts at a cluster. */
  lemma ChainUnique(entries: seq<nat>, a: seq<nat>, b: seq<nat>)
    requires |entries| <= CHAIN_STOP && InRange(entries, a) && Linked(entries, a) && InRange(entries, b) && Linked(entries, b)
    requires a != [] && b != [] && a[0] == b[0]
    ensures a == b
  {
    WalkFixed(entries, a, b);
  }

  // -------------------------------------------------------------- allocation

  /** How many steps a search that starts at `start` and wraps around takes to reach `c`. */
  function Rank(entries: seq<nat>, start: nat, c: nat): int {
    if c >= start then c - start else c - start + |entries| - RESERVED_FAT_ENTRY_COUNT
  }

  /** The first free cluster at or after `start` in cyclic order, `None` exactly when there is none. */
  ghost predicate FirstFree(entries: seq<nat>, start: nat, r: Option<nat>) {
    match r
    case None => FreeSet(entries) == {}
    case Some(c) => IsFree(entries, c) && forall d | IsFree(entries, d) :: Rank(entries, start, c) <= Rank(entries, start, d)
  }

  function Allocated(entries: seq<nat>, prev: Option<nat>, c: nat): seq<nat>
    requires c < |entries| && (prev.Some? ==> prev.value < |entries|)
  {
    (if prev.Some? then entries[prev.value := c] else entries)[c := END_OF_CHAIN]
  }

  lemma AllocatedFree(entries: seq<nat>, prev: Option<nat>, c: nat)
    requires IsFree(entries, c) && |entries| <= CHAIN_STOP
    requires prev.Some? ==> RESERVED_FAT_ENTRY_COUNT <= prev.value < |entries| && !IsFree(entries, prev.value)
    ensures FreeSet(Allocated(entries, prev, c)) == FreeSet(entries) - {c}
    ensures |FreeSet(Allocated(entries, prev, c))| == |FreeSet(entries)| - 1
  {
    assert c in FreeSet(entries);
    assert FreeSet(Allocated(entries, prev, c)) == FreeSet(entries) - {c};
  }

  /** A chain with the new cluster behind its tail, or a new chain of that one cluster. */
  lemma AllocatedChain(entries: seq<nat>, chain: seq<nat>, c: nat)
    requires IsChain(entries, chain) && IsFree(entries, c) && |entries| <= CHAIN_STOP
    ensures IsChain(Allocated(entries, if chain == [] then None else Some(chain[|chain| - 1]), c), chain + [c])
  {
    var n := |chain| - 1;
    var entries' := Allocated(entries, if chain == [] then None else Some(chain[n]), c);
    if chain != [] {
      NotOnChain(entries, chain, c);
      assert forall i | 0 <= i < n :: entries'[chain[i]] == entries[chain[i]];
      assert entries'[chain[n]] == c == Masked(c);
    }
    assert Distinct(chain + [c]) && InRange(entries', chain + [c]) && entries'[c] == END_OF_CHAIN;
  }

  /** The clusters of a chain are not free. */
  lemma NotOnChain(entries: seq<nat>, chain: seq<nat>, c: nat)
    requires IsChain(entries, chain) && IsFree(entries, c) && |entries| <= CHAIN_STOP
    ensures forall i | 0 <= i < |chain| :: !IsFree(entries, chain[i]) && chain[i] != c
  {
    forall i | 0 <= i < |chain| ensures Masked(entries[chain[i]]) != 0 {
      if i + 1 < |chain| { assert Masked(entries[chain[i]]) == chain[i + 1]; }
    }
  }

  /** A table that agrees on the clusters of a chain has that chain. */
  lemma ChainFrame(entries: seq<nat>, entries': seq<nat>, chain: seq<nat>)
    requires IsChain(entries, chain) && |entries'| == |entries|
    requires forall i | 0 <= i < |chain| :: entries'[chain[i]] == entries[chain[i]]
    ensures IsChain(entries', chain)
  {
  }

  // ------------------------------------------------------------------ freeing

  function Zeroed(entries: seq<nat>, clusters: seq<nat>): (r: seq<nat>)
    ensures |r| == |entries|
  {
    seq(|entries|, i requires 0 <= i < |entries| => if i in clusters then 0 else entries[i])
  }

  /** The clusters freed, and the chain cut behind `prev`. */
  function Freed(entries: seq<nat>, clusters: seq<nat>, prev: Option<nat>): seq<nat>
    requires prev.Some? ==> prev.value < |entries|
  {
    Zeroed(if prev.Some? then entries[prev.value := END_OF_CHAIN] else entries, clusters)
  }

  function Elements(xs: seq<nat>): set<nat> { set i | 0 <= i < |xs| :: xs[i] }

  lemma {:induction false} ElementsCard(xs: seq<nat>)
    requires Distinct(xs)
    ensures |Elements(xs)| == |xs|
  {
    if xs == [] {
      assert Elements(xs) == {};
    } else {
      var n := |xs| - 1;
      ElementsCard(xs[..n]);
      assert Elements(xs) == Elements(xs[..n]) + {xs[n]};
    }
  }

  lemma FreedFree(entries: seq<nat>, clusters: seq<nat>, prev: Option<nat>)
    requires InRange(entries, clusters) && Distinct(clusters)
    requires forall i | 0 <= i < |clusters| :: !IsFree(entries, clusters[i])
    requires prev.Some? ==> RESERVED_FAT_ENTRY_COUNT <= prev.value < |entries| && !IsFree(entries, prev.value) && prev.value !in clusters
    ensures FreeSet(Freed(entries, clusters, prev)) == FreeSet(entries) + Elements(clusters)
    ensures |FreeSet(Freed(entries, clusters, prev))| == |FreeSet(entries)| + |clusters|
  {
    var entries' := Freed(entries, clusters, prev);
    forall c ensures c in FreeSet(entries') <==> c in FreeSet(entries) || c in Elements(clusters) {
      if c in Elements(clusters) { assert c in clusters; }
    }
    assert FreeSet(entries') == FreeSet(entries) + Elements(clusters);
    assert FreeSet(entries) !! Elements(clusters);
    ElementsCard(clusters);
  }

  lemma FreedCount(entries: seq<nat>, clusters: seq<nat>, prev: Option<nat>)
    requires InRange(entries, clusters) && Distinct(clusters)
    requires forall i | 0 <= i < |clusters| :: !IsFree(entries, clusters[i])
    requires prev.Some? ==> RESERVED_FAT_ENTRY_COUNT <= prev.value < |entries| && !IsFree(entries, prev.value) && prev.value !in clusters
    ensures |FreeSet(Freed(entries, clusters, prev))| == |FreeSet(entries)| + |clusters| <= |entries|
  {
    FreedFree(entries, clusters, prev);
    FreeBelowSmall(Freed(entries, clusters, prev), |entries|);
  }

  /** Cutting a chain leaves exactly its prefix. */
  lemma CutChain(entries: seq<nat>, chain: seq<nat>, n: nat)
    requires IsChain(entries, chain) && n < |chain|
    ensures IsChain(Freed(entries, chain[n..], if n == 0 then None else Some(chain[n - 1])), chain[..n])
  {
    forall i | 0 <= i < n ensures chain[i] !in chain[n..] {
      assert forall j | 0 <= j < |chain[n..]| :: chain[n..][j] == chain[n + j] != chain[i];
    }
  }

  class FileAllocTable {
    const dataClusters: nat
    var entries: seq<nat>
    var freeCount: nat
    var nextFree: nat

    constructor (dataClusters: nat, entries: seq<nat>, freeCount: nat, nextFree: nat)
      ensures this.dataClusters == dataClusters && this.entries == entries && this.freeCount == freeCount && this.nextFree == nextFree
    {
      this.dataClusters, this.entries, this.freeCount, this.nextFree := dataClusters, entries, freeCount, nextFree;
    }

    /** A table with an entry for every cluster, and no cluster number that reads as an end of chain. */
    ghost predicate Valid()
      reads this
    {
      && |entries| == dataClusters + RESERVED_FAT_ENTRY_COUNT <= CHAIN_STOP
      && freeCount < U32 && nextFree < U32
    }

    /** The count kept is the number of free entries. */
    ghost predicate Exact()
      reads this
    {
      freeCount == |FreeSet(entries)|
    }

    predicate MetaUsable()
      reads this
    {
      freeCount <= dataClusters && RESERVED_FAT_ENTRY_COUNT <= nextFree < dataClusters + RESERVED_FAT_ENTRY_COUNT
    }

    /** Keep a plausible count and hint, or recompute both from the table. */
    method MaintainAllocMeta()
      requires Valid()
      modifies this`freeCount, this`nextFree
      ensures Valid()
      ensures old(MetaUsable()) ==> freeCount == old(freeCount) && nextFree == old(nextFree)
      ensures !old(MetaUsable()) ==> Exact()
      ensures !old(MetaUsable()) ==>
                if FreeSet(entries) == {} then nextFree == INVALID_ALLOC_META
                else nextFree in FreeSet(entries) && forall c | c in FreeSet(entries) :: nextFree <= c
    {
      var total := dataClusters + RESERVED_FAT_ENTRY_COUNT;
      if freeCount > dataClusters ||
         (nextFree != INVALID_ALLOC_META && !(RESERVED_FAT_ENTRY_COUNT <= nextFree < total)) {
        freeCount := INVALID_ALLOC_META;
        nextFree := INVALID_ALLOC_META;
      }
      if freeCount == INVALID_ALLOC_META || nextFree == INVALID_ALLOC_META {
        nextFree := INVALID_ALLOC_META;
        freeCount := 0;
        var c := RESERVED_FAT_ENTRY_COUNT;
        assert FreeBelow(entries, c) == {};
        while c < |entries|
          invariant RESERVED_FAT_ENTRY_COUNT <= c <= |entries|
          invariant freeCount == |FreeBelow(entries, c)| <= c
          invariant if FreeBelow(entries, c) == {} then nextFree == INVALID_ALLOC_META
                    else nextFree in FreeBelow(entries, c) && forall d | d in FreeBelow(entries, c) :: nextFree <= d
        {
          FreeBelowStep(entries, c);
          if Masked(entries[c]) == 0 {
            freeCount := freeCount + 1;
            nextFree := if c < nextFree then c else nextFree;
          }
          c := c + 1;
        }
      }
    }

    /** The first free cluster of `lo..hi`. */
    method FindFreeCluster(lo: nat, hi: nat) returns (r: Option<nat>)
      requires RESERVED_FAT_ENTRY_COUNT <= lo <= hi <= |entries|
      ensures r.Some? ==> lo <= r.value < hi && IsFree(entries, r.value) && forall c | lo <= c < r.value :: !IsFree(entries, c)
      ensures r.None? ==> forall c | lo <= c < hi :: !IsFree(entries, c)
    {
      var c := lo;
      while c < hi
        invariant lo <= c <= hi
        invariant forall d | lo <= d < c :: !IsFree(entries, d)
      {
        if Masked(entries[c]) == 0 {
          return Some(c);
        }
        c := c + 1;
      }
      r := None;
    }

    function Start(): nat
      reads this
    {
      if RESERVED_FAT_ENTRY_COUNT <= nextFree < dataClusters + RESERVED_FAT_ENTRY_COUNT then nextFree
      else RESERVED_FAT_ENTRY_COUNT
    }

    /** Allocate the first free cluster from the hint on, and link it behind `prev` if there is one. */
    method AllocCluster(prev: Option<nat>) returns (r: Option<nat>)
      requires Valid()
      requires prev.Some? ==> RESERVED_FAT_ENTRY_COUNT <= prev.value < |entries| && !IsFree(entries, prev.value)
      modifies this
      ensures Valid() && FirstFree(old(entries), old(Start()), r)
      ensures r.None? ==> entries == old(entries) && freeCount == old(freeCount) && nextFree == old(nextFree)
      ensures r.Some? ==> entries == Allocated(old(entries), prev, r.value) && nextFree == r.value + 1
      ensures old(Exact()) ==> Exact()
    {
      var start := Start();
      r := FindFreeCluster(start, dataClusters + RESERVED_FAT_ENTRY_COUNT);
      if r.None? && start > RESERVED_FAT_ENTRY_COUNT {
        r := FindFreeCluster(RESERVED_FAT_ENTRY_COUNT, start);
      }
      assert r.None? ==> FreeSet(entries) == {};
      if r.Some? {
        AllocatedFree(entries, prev, r.value);
        if freeCount > 0 {
          freeCount := freeCount - 1;
        }
        nextFree := r.value + 1;
        if prev.Some? {
          entries := entries[prev.value := r.value];
        }
        entries := entries[r.value := END_OF_CHAIN];
      }
    }

    /** Free clusters and cut the chain before them. The kernel stops, with nothing changed, when the
        entry of `prev`, compared with all its 32 bits, is not the first freed cluster. */
    method FreeClusters(clusters: seq<nat>, prev: Option<nat>) returns (ok: bool)
      requires Valid() && InRange(entries, clusters) && Distinct(clusters)
      requires forall i | 0 <= i < |clusters| :: !IsFree(entries, clusters[i])
      requires prev.Some? ==> RESERVED_FAT_ENTRY_COUNT <= prev.value < |entries| && !IsFree(entries, prev.value) && prev.value !in clusters
      modifies this
      ensures Valid() && nextFree == old(nextFree)
      ensures ok == (clusters == [] || prev.None? || old(entries)[prev.value] == clusters[0])
      ensures !ok || clusters == [] ==> entries == old(entries) && freeCount == old(freeCount)
      ensures ok && clusters != [] ==> entries == Freed(old(entries), clusters, prev)
      ensures old(Exact()) && ok ==> Exact()
    {
      hide FreeSet, Zeroed, IsFree, Distinct;
      if clusters == [] {
        return true;
      }
      FreedCount(entries, clusters, prev);
      if prev.Some? {
        if entries[prev.value] != clusters[0] {
          return false;
        }
        entries := entries[prev.value := END_OF_CHAIN];
      }
      ZeroAll(clusters);
      freeCount := (freeCount + |clusters|) % U32;
      ok := true;
    }

    method ZeroAll(clusters: seq<nat>)
      requires InRange(entries, clusters)
      modifies this`entries
      ensures entries == Zeroed(old(entries), clusters)
    {
      var i := 0;
      while i < |clusters|
        invariant 0 <= i <= |clusters| && |entries| == |old(entries)| && entries == Zeroed(old(entries), clusters[..i])
      {
        entries := entries[clusters[i] := 0];
        ZeroedStep(old(entries), clusters, i);
        i := i + 1;
      }
      assert clusters[..i] == clusters;
    }

    /** Follow the links from a first cluster to the end. The walk given is all the kernel needs to come to an end:
        without one it leaves the table or goes round for ever. */
    method ClusterChain(first: nat, ghost chain: seq<nat>) returns (r: seq<nat>)
      requires Valid()
      requires if first < RESERVED_FAT_ENTRY_COUNT || first >= CHAIN_STOP then chain == []
               else Walk(entries, chain) && chain != [] && chain[0] == first
      ensures r == chain
    {
      r := [];
      if first < RESERVED_FAT_ENTRY_COUNT {
        return;
      }
      var curr := first;
      while curr < CHAIN_STOP
        invariant |r| <= |chain| && r == chain[..|r|]
        invariant |r| < |chain| ==> curr == chain[|r|]
        invariant |r| == |chain| ==> curr >= CHAIN_STOP
        decreases |chain| - |r|
      {
        r := r + [curr];
        curr := Masked(entries[curr]);
      }
    }
  }

  lemma ZeroedStep(entries: seq<nat>, clusters: seq<nat>, i: nat)
    requires i < |clusters| && clusters[i] < |entries|
    ensures Zeroed(entries, clusters[..i])[clusters[i] := 0] == Zeroed(entries, clusters[..i + 1])
  {
    assert clusters[..i + 1] == clusters[..i] + [clusters[i]];
  }
}
