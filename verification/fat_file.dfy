/** The chains of all files of a volume over whole runs: creating, appending and cutting. */
module FatFiles {
  import opened Common
  import opened Fat

  const SECTOR_SIZE := 512
  const SECTOR_COUNT_PER_PAGE := 8

  // ---------------------------------------------------------------- whole runs

  /** The table, the count kept beside it, and the chain of every file. */
  datatype Volume = Volume(entries: seq<nat>, freeCount: nat, files: map<nat, seq<nat>>)

  ghost predicate Apart(a: seq<nat>, b: seq<nat>) {
    forall i, j | 0 <= i < |a| && 0 <= j < |b| :: a[i] != b[j]
  }

  ghost predicate Wf(v: Volume) {
    && |v.entries| <= CHAIN_STOP
    && (forall f | f in v.files :: IsChain(v.entries, v.files[f]))
    && (forall f, g | f in v.files && g in v.files && f != g :: Apart(v.files[f], v.files[g]))
    && v.freeCount == |FreeSet(v.entries)|
  }

  /** Links hold the bare cluster number, as the kernel writes them. */
  ghost predicate Clean(v: Volume) {
    forall f, i | f in v.files && 0 <= i < |v.files[f]| - 1 :: CleanLink(v.entries, v.files[f], i)
  }

  ghost predicate CleanLink(entries: seq<nat>, chain: seq<nat>, i: nat)
    requires i + 1 < |chain|
  {
    chain[i] < |entries| && entries[chain[i]] == chain[i + 1]
  }

  datatype Op = Create(f: nat, c: nat) | Append(f: nat, c: nat) | Cut(f: nat, n: nat)

  function Tail(chain: seq<nat>): Option<nat> {
    if chain == [] then None else Some(chain[|chain| - 1])
  }

  function Before(chain: seq<nat>, n: nat): Option<nat>
    requires n <= |chain|
  {
    if n == 0 then None else Some(chain[n - 1])
  }

  /** A cut runs when the kernel's comparison of the link before it holds. */
  ghost predicate Enabled(v: Volume, op: Op) {
    match op
    case Create(f, c) => f !in v.files && IsFree(v.entries, c)
    case Append(f, c) => f in v.files && IsFree(v.entries, c)
    case Cut(f, n) => f in v.files && n < |v.files[f]| && (n > 0 ==> CleanLink(v.entries, v.files[f], n - 1))
  }

  ghost function Apply(v: Volume, op: Op): Volume
    requires Wf(v) && Enabled(v, op)
  {
    match op
    case Create(f, c) => Volume(Allocated(v.entries, None, c), if v.freeCount > 0 then v.freeCount - 1 else 0, v.files[f := [c]])
    case Append(f, c) =>
      Volume(Allocated(v.entries, Tail(v.files[f]), c), if v.freeCount > 0 then v.freeCount - 1 else 0,
             v.files[f := v.files[f] + [c]])
    case Cut(f, n) =>
      Volume(Freed(v.entries, v.files[f][n..], Before(v.files[f], n)), v.freeCount + |v.files[f]| - n,
             v.files[f := v.files[f][..n]])
  }

  /** Growing one chain by a free cluster touches no other chain. */
  lemma GrowOthers(entries: seq<nat>, chain: seq<nat>, c: nat, other: seq<nat>)
    requires IsChain(entries, chain) && IsChain(entries, other) && Apart(chain, other) && IsFree(entries, c)
    requires |entries| <= CHAIN_STOP
    ensures IsChain(Allocated(entries, Tail(chain), c), other) && Apart(chain + [c], other) && Apart(other, chain + [c])
  {
    NotOnChain(entries, other, c);
    GrowOtherEntries(entries, chain, c, other);
    ChainFrame(entries, Allocated(entries, Tail(chain), c), other);
  }

  lemma GrowWf(v: Volume, f: nat, chain: seq<nat>, c: nat)
    requires Wf(v) && IsFree(v.entries, c) && IsChain(v.entries, chain) && v.freeCount > 0
    requires f in v.files ==> v.files[f] == chain
    requires forall g | g in v.files && g != f :: Apart(chain, v.files[g])
    ensures Wf(Volume(Allocated(v.entries, Tail(chain), c), v.freeCount - 1, v.files[f := chain + [c]]))
  {
    if chain != [] { NotOnChain(v.entries, chain, c); }
    AllocatedFree(v.entries, Tail(chain), c);
    AllocatedChain(v.entries, chain, c);
    forall g | g in v.files && g != f
      ensures IsChain(Allocated(v.entries, Tail(chain), c), v.files[g]) && Apart(chain + [c], v.files[g]) &&
              Apart(v.files[g], chain + [c])
    {
      GrowOthers(v.entries, chain, c, v.files[g]);
    }
  }

  /** Cutting one chain touches no other chain. */
  lemma CutOthers(entries: seq<nat>, chain: seq<nat>, n: nat, other: seq<nat>)
    requires IsChain(entries, chain) && IsChain(entries, other) && Apart(chain, other) && n < |chain|
    ensures IsChain(Freed(entries, chain[n..], Before(chain, n)), other) && Apart(chain[..n], other) && Apart(other, chain[..n])
  {
    var entries' := Freed(entries, chain[n..], Before(chain, n));
    CutOtherEntries(entries, chain, n, other);
    ChainFrame(entries, entries', other);
  }

  lemma CutWf(v: Volume, f: nat, n: nat)
    requires Wf(v) && f in v.files && n < |v.files[f]|
    ensures Wf(Volume(Freed(v.entries, v.files[f][n..], Before(v.files[f], n)), v.freeCount + |v.files[f]| - n,
                      v.files[f := v.files[f][..n]]))
  {
    hide Zeroed, IsChain, Apart, FreeSet, InRange, Distinct, IsFree;
    var chain := v.files[f];
    CutChain(v.entries, chain, n);
    CutFree(v.entries, chain, n);
    forall g | g in v.files && g != f
      ensures IsChain(Freed(v.entries, chain[n..], Before(chain, n)), v.files[g]) && Apart(chain[..n], v.files[g]) &&
              Apart(v.files[g], chain[..n])
    {
      CutOthers(v.entries, chain, n, v.files[g]);
    }
  }

  /** What a cut gives back to the allocator. */
  lemma CutFree(entries: seq<nat>, chain: seq<nat>, n: nat)
    requires IsChain(entries, chain) && n < |chain| && |entries| <= CHAIN_STOP
    ensures InRange(entries, chain[n..]) && Distinct(chain[n..])
    ensures forall i | 0 <= i < |chain[n..]| :: !IsFree(entries, chain[n..][i])
    ensures n > 0 ==> chain[n - 1] < |entries| && !IsFree(entries, chain[n - 1]) && chain[n - 1] !in chain[n..]
    ensures |FreeSet(Freed(entries, chain[n..], Before(chain, n)))| == |FreeSet(entries)| + |chain| - n
  {
    ChainBusy(entries, chain);
    assert forall i | 0 <= i < |chain[n..]| :: chain[n..][i] == chain[n + i];
    FreedFree(entries, chain[n..], Before(chain, n));
  }

  lemma ChainBusy(entries: seq<nat>, chain: seq<nat>)
    requires IsChain(entries, chain) && |entries| <= CHAIN_STOP
    ensures forall i | 0 <= i < |chain| :: !IsFree(entries, chain[i])
  {
    forall i | 0 <= i < |chain| ensures !IsFree(entries, chain[i]) {
      if i + 1 < |chain| { assert Masked(entries[chain[i]]) == chain[i + 1]; }
    }
  }

  lemma ApplyWf(v: Volume, op: Op)
    requires Wf(v) && Enabled(v, op)
    ensures Wf(Apply(v, op))
  {
    match op
    case Create(f, c) =>
      assert c in FreeSet(v.entries);
      GrowWf(v, f, [], c);
      assert [] + [c] == [c];
    case Append(f, c) =>
      assert c in FreeSet(v.entries);
      GrowWf(v, f, v.files[f], c);
    case Cut(f, n) =>
      CutWf(v, f, n);
  }

  /** A clean volume stays clean, so no cut is ever refused. */
  lemma ApplyClean(v: Volume, op: Op)
    requires Wf(v) && Enabled(v, op) && Clean(v)
    ensures Clean(Apply(v, op))
  {
    var v' := Apply(v, op);
    ApplyWf(v, op);
    forall f, i | f in v'.files && 0 <= i < |v'.files[f]| - 1 ensures CleanLink(v'.entries, v'.files[f], i) {
      CleanStep(v, op, f, i);
    }
  }

  lemma CleanStep(v: Volume, op: Op, f: nat, i: nat)
    requires Wf(v) && Enabled(v, op) && Clean(v) && f in Apply(v, op).files && i + 1 < |Apply(v, op).files[f]|
    ensures CleanLink(Apply(v, op).entries, Apply(v, op).files[f], i)
  {
    if op.Cut? {
      CleanCut(v, op, f, i);
    } else {
      CleanGrow(v, op, f, i);
    }
  }

  lemma CleanCut(v: Volume, op: Op, f: nat, i: nat)
    requires Wf(v) && Enabled(v, op) && op.Cut? && Clean(v) && f in v.files && i + 1 < |Apply(v, op).files[f]|
    ensures CleanLink(Apply(v, op).entries, Apply(v, op).files[f], i)
  {
    assert CleanLink(v.entries, v.files[f], i);
    if f == op.f {
      CutLinks(v.entries, v.files[f], op.n, i);
    } else {
      CutOtherEntries(v.entries, v.files[op.f], op.n, v.files[f]);
    }
  }

  lemma CleanGrow(v: Volume, op: Op, f: nat, i: nat)
    requires Wf(v) && Enabled(v, op) && !op.Cut? && Clean(v) && f in Apply(v, op).files && i + 1 < |Apply(v, op).files[f]|
    ensures CleanLink(Apply(v, op).entries, Apply(v, op).files[f], i)
  {
    assert f in v.files && i + 1 < |v.files[f]| ==> CleanLink(v.entries, v.files[f], i);
    if f == op.f {
      GrowLinks(v.entries, if f in v.files then v.files[f] else [], op.c, i);
    } else {
      GrowOtherEntries(v.entries, if op.f in v.files then v.files[op.f] else [], op.c, v.files[f]);
    }
  }

  lemma CutLinks(entries: seq<nat>, chain: seq<nat>, n: nat, i: nat)
    requires IsChain(entries, chain) && n < |chain| && i + 1 < n && CleanLink(entries, chain, i)
    ensures CleanLink(Freed(entries, chain[n..], Before(chain, n)), chain[..n], i)
  {
    assert forall j | 0 <= j < |chain[n..]| :: chain[n..][j] == chain[n + j] != chain[i];
  }

  lemma CutOtherEntries(entries: seq<nat>, chain: seq<nat>, n: nat, other: seq<nat>)
    requires IsChain(entries, chain) && n < |chain| && IsChain(entries, other) && Apart(chain, other)
    ensures forall i | 0 <= i < |other| :: Freed(entries, chain[n..], Before(chain, n))[other[i]] == entries[other[i]]
  {
    forall i | 0 <= i < |other| ensures other[i] !in chain[n..] {
      assert forall j | 0 <= j < |chain[n..]| :: chain[n..][j] == chain[n + j] != other[i];
    }
  }

  lemma GrowLinks(entries: seq<nat>, chain: seq<nat>, c: nat, i: nat)
    requires IsChain(entries, chain) && IsFree(entries, c) && |entries| <= CHAIN_STOP && i + 1 < |chain + [c]|
    requires i + 1 < |chain| ==> CleanLink(entries, chain, i)
    ensures CleanLink(Allocated(entries, Tail(chain), c), chain + [c], i)
  {
    NotOnChain(entries, chain, c);
  }

  lemma GrowOtherEntries(entries: seq<nat>, chain: seq<nat>, c: nat, other: seq<nat>)
    requires IsChain(entries, chain) && IsFree(entries, c) && |entries| <= CHAIN_STOP && IsChain(entries, other) && Apart(chain, other)
    ensures forall i | 0 <= i < |other| :: Allocated(entries, Tail(chain), c)[other[i]] == entries[other[i]]
  {
    NotOnChain(entries, other, c);
  }

  ghost predicate Runs(v: Volume, ops: seq<Op>)
    requires Wf(v)
    decreases |ops|
  {
    ops == [] || (Enabled(v, ops[0]) && (ApplyWf(v, ops[0]); Runs(Apply(v, ops[0]), ops[1..])))
  }

  ghost function Run(v: Volume, ops: seq<Op>): (r: Volume)
    requires Wf(v) && Runs(v, ops)
    decreases |ops|
  {
    if ops == [] then v else (ApplyWf(v, ops[0]); Run(Apply(v, ops[0]), ops[1..]))
  }

  /** In every run: chains stay disjoint, acyclic and in range, the count stays exact, a clean volume
      stays clean, and a file no operation names keeps its chain. */
  lemma {:induction false} RunWf(v: Volume, ops: seq<Op>, f: nat)
    requires Wf(v) && Runs(v, ops)
    ensures Wf(Run(v, ops)) && (Clean(v) ==> Clean(Run(v, ops)))
    ensures f in v.files && (forall i | 0 <= i < |ops| :: ops[i].f != f) ==>
              f in Run(v, ops).files && Run(v, ops).files[f] == v.files[f]
    decreases |ops|
  {
    if ops != [] {
      ApplyWf(v, ops[0]);
      if Clean(v) { ApplyClean(v, ops[0]); }
      assert forall i | 0 <= i < |ops[1..]| :: ops[1..][i] == ops[i + 1];
      RunWf(Apply(v, ops[0]), ops[1..], f);
    }
  }
}
