/** The file descriptor table: where new descriptors go. */
module FdTables {
  import opened Common
  import opened MmapSearch

  /** The least number from `from` on that is not in use. */
  ghost predicate Least<D>(files: map<nat, D>, from: nat, fd: nat) {
    from <= fd && fd !in files && forall k | from <= k < fd :: k in files
  }

  /** `n` numbers in a row. */
  function From(fd: nat, n: nat): seq<nat> { seq(n, i requires 0 <= i => fd + i) }

  /** The table with `descs` at `fd`, `fd` + 1 and so on. */
  function Inserted<D>(files: map<nat, D>, fd: nat, descs: seq<D>): map<nat, D>
    decreases |descs|
  {
    if descs == [] then files else Inserted(files[fd := descs[0]], fd + 1, descs[1..])
  }

  lemma {:induction false} InsertedIs<D>(files: map<nat, D>, fd: nat, descs: seq<D>)
    ensures forall k :: k in Inserted(files, fd, descs) <==> k in files || fd <= k < fd + |descs|
    ensures forall k | fd <= k < fd + |descs| :: Inserted(files, fd, descs)[k] == descs[k - fd]
    ensures forall k | k in files && !(fd <= k < fd + |descs|) :: Inserted(files, fd, descs)[k] == files[k]
    decreases |descs|
  {
    if descs != [] { InsertedIs(files[fd := descs[0]], fd + 1, descs[1..]); }
  }

  class FdTable<D(==)> {
    var files: map<nat, D>
    var limit: nat

    constructor (files: map<nat, D>, limit: nat)
      ensures this.files == files && this.limit == limit
    {
      this.files, this.limit := files, limit;
    }

    /** Insert at the least unused descriptor not below `from`; every other descriptor stays. */
    method AddFrom(desc: D, from: nat) returns (r: Option<nat>)
      modifies this`files
      ensures r.None? <==> |old(files)| >= limit
      ensures r.None? ==> files == old(files)
      ensures r.Some? ==> Least(old(files), from, r.value) && files == old(files)[r.value := desc]
    {
      if |files| >= limit {
        return None;
      }
      var ks := Ascending(files.Keys);
      var i := FirstAt(ks, from);
      var fd := from;
      while i < |ks| && ks[i] == fd
        invariant i <= |ks| && from <= fd && forall k | from <= k < fd :: k in files
        invariant forall j | 0 <= j < i :: ks[j] < fd
        invariant forall j | i <= j < |ks| :: fd <= ks[j]
        decreases |ks| - i
      {
        i := i + 1;
        fd := fd + 1;
      }
      assert forall j | 0 <= j < |ks| :: ks[j] != fd;
      files := files[fd := desc];
      r := Some(fd);
    }

    method Add(desc: D) returns (r: Option<nat>)
      modifies this`files
      ensures r.None? <==> |old(files)| >= limit
      ensures r.None? ==> files == old(files)
      ensures r.Some? ==> Least(old(files), 0, r.value) && files == old(files)[r.value := desc]
    {
      r := AddFrom(desc, 0);
    }

    /** Insert several at once: they get consecutive numbers from the least unused one on. */
    method AddMany(descs: seq<D>) returns (r: Option<seq<nat>>)
      modifies this`files
      ensures r.None? <==> |old(files)| + |descs| > limit
      ensures r.None? ==> files == old(files)
      ensures r.Some? ==> exists fd :: Least(old(files), 0, fd) && r.value == From(fd, |descs|) && files == Inserted(old(files), fd, descs)
    {
      if |files| + |descs| > limit {
        return None;
      }
      var fds;
      ghost var fd;
      fds, fd := PickMany(|descs|);
      InsertAll(fds, descs, fd);
      r := Some(fds);
    }

    method PickMany(n: nat) returns (fds: seq<nat>, ghost m: nat)
      ensures Least(files, 0, m) && fds == From(m, n)
    {
      var ks := Ascending(files.Keys);
      m := FirstGap(ks);
      var fd := 0;
      fds := [];
      while fd < |ks|
        invariant fd <= |ks| && |fds| <= n && |fds| == (if fd <= m then 0 else fd - m)
        invariant forall i | 0 <= i < |fds| :: fds[i] == m + i
        decreases |ks| - fd
      {
        if fd != ks[fd] {
          if |fds| >= n {
            break;
          }
          fds := fds + [fd];
        }
        fd := fd + 1;
      }
      while |fds| < n
        invariant |fds| <= n && (|fds| < n ==> fd == m + |fds|)
        invariant forall i | 0 <= i < |fds| :: fds[i] == m + i
        decreases n - |fds|
      {
        fds := fds + [fd];
        fd := fd + 1;
      }
      GapIsLeast(files, ks, m);
    }

    method InsertAll(fds: seq<nat>, descs: seq<D>, ghost fd: nat)
      requires fds == From(fd, |descs|)
      modifies this`files
      ensures files == Inserted(old(files), fd, descs)
    {
      var i := 0;
      assert descs[0..] == descs;
      while i < |fds|
        invariant 0 <= i <= |fds| && Inserted(files, fd + i, descs[i..]) == Inserted(old(files), fd, descs)
      {
        assert descs[i..][1..] == descs[i + 1..];
        files := files[fds[i] := descs[i]];
        i := i + 1;
      }
    }
  }

  /** How many numbers from 0 on are in use without a gap. */
  ghost function FirstGap(ks: seq<nat>): (m: nat)
    requires Increasing(ks)
    ensures m <= |ks| && (forall i | 0 <= i < m :: ks[i] == i) && (forall i | m <= i < |ks| :: ks[i] > i)
  {
    if ks == [] then 0 else
      var n := |ks| - 1;
      var m := FirstGap(ks[..n]);
      assert forall i | 0 <= i < n :: ks[..n][i] == ks[i];
      if m == n && ks[n] == n then n + 1 else
      assert m < n ==> ks[n - 1] > n - 1;
      m
  }

  lemma GapIsLeast<D>(files: map<nat, D>, ks: seq<nat>, m: nat)
    requires Increasing(ks) && (forall k :: k in ks <==> k in files) && m == FirstGap(ks)
    ensures Least(files, 0, m)
  {
    forall k: nat | k < m ensures k in files { assert ks[k] == k && ks[k] in ks; }
    forall i | 0 <= i < |ks| ensures ks[i] != m {
      if i >= m { assert ks[i] > i >= m; }
    }
  }

  /** Several descriptors at once keep every old one, whatever the new ones are, exactly when their numbers are all free. */
  lemma AddManyKeepsIff<D>(files: map<nat, D>, fd: nat, descs: seq<D>)
    requires forall k, i | k in files && 0 <= i < |descs| :: files[k] != descs[i]
    ensures (forall k | k in files :: k in Inserted(files, fd, descs) && Inserted(files, fd, descs)[k] == files[k]) <==>
            (forall k | fd <= k < fd + |descs| :: k !in files)
  {
    InsertedIs(files, fd, descs);
    forall k | fd <= k < fd + |descs| && k in files ensures Inserted(files, fd, descs)[k] != files[k] {
      assert Inserted(files, fd, descs)[k] == descs[k - fd];
    }
  }

  /** Two descriptors over a table that uses 1: the second number is 1, and its old descriptor is gone. */
  lemma AddManyCanOverwrite(a: int, b: int, c: int)
    ensures Least(map[1 := a], 0, 0)
    ensures var files := Inserted(map[1 := a], 0, [b, c]); 1 in files && files[1] == c
  {
    InsertedIs(map[1 := a], 0, [b, c]);
  }
}
