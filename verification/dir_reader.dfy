/** Reading a directory: the entry builder and the iterator over the sectors of its chain. */
module DirReaders {
  import opened Common
  import opened Sv39
  import opened Fat
  import opened FatFiles
  import opened FatReads
  import D = DirEntries

  type Entry = D.Entry

  // ----------------------------------------------------------------- the builder

  /** The thirteen units of a long-name entry, copied field by field. */
  method LfnPart(e: Entry) returns (part: seq<nat>)
    ensures part == D.LfnPart(e)
  {
    var units := new nat[D.LNAME_PART_LEN];
    var i := 0;
    i := CopyUnits(e, 1, 5, units, i);
    i := CopyUnits(e, 14, 6, units, i);
    i := CopyUnits(e, 28, 2, units, i);
    part := units[..];
  }

  method CopyUnits(e: Entry, from: nat, n: nat, units: array<nat>, at: nat) returns (i: nat)
    requires from + 2 * n <= D.DIR_ENTRY_SIZE && at + n <= units.Length
    modifies units
    ensures i == at + n
    ensures forall k | at <= k < i :: units[k] == D.Unit(e, from + 2 * (k - at))
    ensures forall k | 0 <= k < at :: units[k] == old(units[k])
  {
    i := at;
    while i < at + n
      invariant at <= i <= at + n
      invariant forall k | at <= k < i :: units[k] == D.Unit(e, from + 2 * (k - at))
      invariant forall k | 0 <= k < at :: units[k] == old(units[k])
    {
      units[i] := D.Unit(e, from + 2 * (i - at));
      i := i + 1;
    }
  }

  method CalcChecksum(name: seq<Byte>) returns (checksum: nat)
    ensures checksum == D.Checksum(name)
  {
    checksum := 0;
    var i := 0;
    assert name[..0] == [];
    while i < |name|
      invariant 0 <= i <= |name| && checksum == D.Checksum(name[..i])
    {
      assert name[..i + 1][..i] == name[..i];
      checksum := checksum / 2 + checksum % 2 * 0x80;
      checksum := (checksum + name[i]) % 0x100;
      i := i + 1;
    }
    assert name[..i] == name;
  }

  class DirEntryBuilder {
    var currOrder: nat
    var checksum: nat
    var name: seq<nat>

    function View(): D.Builder
      reads this
    {
      D.Builder(currOrder, checksum, name)
    }

    constructor ()
      ensures View() == D.Builder(0, 0, [])
    {
      currOrder, checksum, name := 0, 0, [];
    }

    /** Read a long-name entry; on success the builder is what `ReadLfn` says. */
    method ReadLfnEntry(e: Entry) returns (r: D.Result<()>)
      modifies this
      ensures match D.ReadLfn(old(View()), e)
              case Ok(b) => r == D.Ok(()) && View() == b
              case Err => r == D.Err
              case Panics => r == D.Panics
    {
      var order := e[0] % 0x20;
      var first := currOrder == 0;
      if first {
        name := D.Resized(name, order * D.LNAME_PART_LEN);
      } else if order != currOrder - 1 {
        return D.Err;
      }
      currOrder := order;
      if first && !D.MarkedFinal(e) {
        return D.Err;
      }
      if !first && D.MarkedFinal(e) {
        return D.Err;
      }
      if e[12] != 0 || e[26] != 0 || e[27] != 0 {
        return D.Err;
      }
      if first {
        checksum := e[13];
      } else if checksum != e[13] {
        return D.Err;
      }
      if order == 0 || order * D.LNAME_PART_LEN > |name| {
        return D.Panics;
      }
      var part := LfnPart(e);
      name := D.WithPart(name, order, part);
      r := D.Ok(());
    }

    /** Add the next entry: another part, or the short entry that completes the file. */
    method AddEntry(t: D.Text, e: Entry) returns (r: D.Result<Option<D.DirEntry>>)
      modifies this
      ensures match D.AddEntry(t, old(View()), e)
              case Ok(More(b)) => r == D.Ok(None) && View() == b
              case Ok(Final(d)) => r == D.Ok(Some(d))
              case Err => r == D.Err
              case Panics => r == D.Panics
    {
      if e[11] >= D.ATTR_END {
        return D.Err;
      }
      if e[11] % 0x10 == D.ATTR_LFN {
        var ok := ReadLfnEntry(e);
        match ok
        case Ok(_) => return D.Ok(None);
        case Err => return D.Err;
        case Panics => return D.Panics;
      }
      if currOrder != 1 {
        return D.Err;
      }
      var standard := D.ReadStandardEntry(t, e);
      if standard.Err? {
        return D.Err;
      }
      var sum := CalcChecksum(e[..11]);
      if checksum != sum {
        return D.Err;
      }
      var len := LongNameLen();
      if !t.utf16(name[..len]) {
        return D.Err;
      }
      r := D.Ok(Some(standard.value.(longName := name[..len])));
    }

    method LongNameLen() returns (len: nat)
      ensures len <= |name| && name[..len] == D.UntilZero(name)
    {
      len := 0;
      while len < |name| && name[len] != 0
        invariant 0 <= len <= |name| && forall i | 0 <= i < len :: name[i] != 0
      {
        len := len + 1;
      }
      D.UntilZeroIs(name, len);
    }
  }

  // ---------------------------------------------------------------- raw entries

  const ENTRIES_PER_SECTOR := 16

  function EntryIn(bytes: seq<Byte>, i: nat): Entry
    requires (i + 1) * D.DIR_ENTRY_SIZE <= |bytes|
  {
    bytes[i * D.DIR_ENTRY_SIZE..(i + 1) * D.DIR_ENTRY_SIZE]
  }

  /** The 32-byte pieces of a run of bytes. */
  function EntriesIn(bytes: seq<Byte>): (r: seq<Entry>)
    ensures |r| == |bytes| / D.DIR_ENTRY_SIZE
  {
    seq<Entry>(|bytes| / D.DIR_ENTRY_SIZE, i requires 0 <= i < |bytes| / D.DIR_ENTRY_SIZE => EntryIn(bytes, i))
  }

  /** The entries before the first that starts with a zero byte. */
  function UpToEnd(es: seq<Entry>): (r: seq<Entry>)
    ensures |r| <= |es| && r == es[..|r|]
  {
    if es == [] || es[0][0] == 0 then [] else [es[0]] + UpToEnd(es[1..])
  }

  lemma {:induction false} UpToEndIs(es: seq<Entry>, n: nat)
    requires n <= |es| && (forall i | 0 <= i < n :: es[i][0] != 0) && (n < |es| ==> es[n][0] == 0)
    ensures UpToEnd(es) == es[..n]
  {
    if n > 0 { UpToEndIs(es[1..], n - 1); }
  }

  /** The entries of a sector stand in the directory at that sector's place. */
  lemma SectorEntries(disk: nat -> Sector, ids: seq<nat>, n: nat, i: nat)
    requires n < |ids| && i < ENTRIES_PER_SECTOR
    ensures n * ENTRIES_PER_SECTOR + i < |EntriesIn(FirstSectors(disk, ids, |ids|))|
    ensures EntriesIn(FirstSectors(disk, ids, |ids|))[n * ENTRIES_PER_SECTOR + i] == EntryIn(disk(ids[n]), i)
  {
    var all := FirstSectors(disk, ids, |ids|);
    FirstSectorsPrefix(disk, ids, n + 1, |ids|);
    var lo, hi := i * D.DIR_ENTRY_SIZE, (i + 1) * D.DIR_ENTRY_SIZE;
    var sector := disk(ids[n]);
    assert all[..(n + 1) * SECTOR_SIZE][n * SECTOR_SIZE..] == sector;
    assert all[n * SECTOR_SIZE + lo..n * SECTOR_SIZE + hi] == sector[lo..hi];
  }

  /** What has been read when the iterator stands before entry `j`: none of them ends the directory. */
  ghost predicate ReadUpTo(all: seq<Entry>, j: nat, es: seq<Entry>) {
    j <= |all| && es == all[..j] && forall i | 0 <= i < j :: all[i][0] != 0
  }

  lemma ReadNext(all: seq<Entry>, j: nat, es: seq<Entry>)
    requires ReadUpTo(all, j, es) && j < |all|
    ensures all[j][0] == 0 ==> es == UpToEnd(all)
    ensures all[j][0] != 0 ==> ReadUpTo(all, j + 1, es + [all[j]])
  {
    if all[j][0] == 0 {
      UpToEndIs(all, j);
    } else {
      assert all[..j + 1] == all[..j] + [all[j]];
    }
  }

  /** The entries of one sector, until one ends the directory. */
  method ReadSectorEntries(disk: nat -> Sector, sector: nat, have: seq<Entry>, ghost ids: seq<nat>, ghost n: nat)
    returns (es: seq<Entry>, stop: bool)
    requires n < |ids| && ids[n] == sector
    requires ReadUpTo(EntriesIn(FirstSectors(disk, ids, |ids|)), n * ENTRIES_PER_SECTOR, have)
    ensures stop ==> es == UpToEnd(EntriesIn(FirstSectors(disk, ids, |ids|)))
    ensures !stop ==> ReadUpTo(EntriesIn(FirstSectors(disk, ids, |ids|)), (n + 1) * ENTRIES_PER_SECTOR, es)
  {
    ghost var all := EntriesIn(FirstSectors(disk, ids, |ids|));
    var buf := disk(sector);
    es := have;
    var i := 0;
    while i < ENTRIES_PER_SECTOR
      invariant 0 <= i <= ENTRIES_PER_SECTOR && ReadUpTo(all, n * ENTRIES_PER_SECTOR + i, es)
    {
      SectorEntries(disk, ids, n, i);
      ReadNext(all, n * ENTRIES_PER_SECTOR + i, es);
      if buf[i * D.DIR_ENTRY_SIZE] == 0 {
        return es, true;
      }
      es := es + [EntryIn(buf, i)];
      i := i + 1;
    }
    stop := false;
  }

  /** The raw entries of a directory: all pieces of its chain up to the first that starts with zero. */
  method RawEntries(disk: nat -> Sector, b: Bpb, clusters: seq<nat>) returns (es: seq<Entry>)
    requires OnVolume(b, clusters)
    ensures es == UpToEnd(EntriesIn(ChainBytes(disk, b, clusters)))
  {
    ghost var ids := SectorsOf(b, clusters);
    ghost var all := EntriesIn(FirstSectors(disk, ids, |ids|));
    es := [];
    var index := 0;
    while index < |clusters|
      invariant 0 <= index <= |clusters| && Base(b, index) <= |ids|
      invariant ReadUpTo(all, Base(b, index) * ENTRIES_PER_SECTOR, es)
    {
      SectorsPlaced(b, clusters, index);
      BaseNext(b, index);
      var stop;
      es, stop := ReadClusterEntries(disk, b, clusters[index], es, ids, Base(b, index));
      if stop {
        return;
      }
      index := index + 1;
    }
    UpToEndIs(all, |all|);
  }

  method ReadClusterEntries(disk: nat -> Sector, b: Bpb, c: nat, have: seq<Entry>, ghost ids: seq<nat>, ghost base: nat)
    returns (es: seq<Entry>, stop: bool)
    requires Widths(b) && IsValidFat32Bpb(b) && IsCluster(b, c) && RunAt(b, c, ids, base)
    requires ReadUpTo(EntriesIn(FirstSectors(disk, ids, |ids|)), base * ENTRIES_PER_SECTOR, have)
    ensures stop ==> es == UpToEnd(EntriesIn(FirstSectors(disk, ids, |ids|)))
    ensures !stop ==> base + b.sectorPerCluster <= |ids|
    ensures !stop ==> ReadUpTo(EntriesIn(FirstSectors(disk, ids, |ids|)), (base + b.sectorPerCluster) * ENTRIES_PER_SECTOR, es)
  {
    ClusterLength(b, c);
    var (start, end) := ClusterSectors(b, c);
    hide ReadUpTo, ClusterSectors, IsValidFat32Bpb, Widths;
    es := have;
    var sector := start;
    while sector < end
      invariant start <= sector <= end
      invariant ReadUpTo(EntriesIn(FirstSectors(disk, ids, |ids|)), (base + (sector - start)) * ENTRIES_PER_SECTOR, es)
    {
      SectorRunAt(b, c, ids, base, sector - start);
      es, stop := ReadSectorEntries(disk, sector, es, ids, base + (sector - start));
      if stop {
        return;
      }
      sector := sector + 1;
    }
    stop := false;
  }

  // ---------------------------------------------------------------- the iterator

  /** Start with an entry: a builder for a long name, or a file that has only its short entry. */
  method FromEntry(t: D.Text, e: Entry) returns (builder: DirEntryBuilder?, r: D.Result<Option<D.DirEntry>>)
    ensures builder != null ==> fresh(builder)
    ensures match D.FromEntry(t, e)
            case Ok(More(b)) => r == D.Ok(None) && builder != null && builder.View() == b
            case Ok(Final(d)) => r == D.Ok(Some(d)) && builder == null
            case Err => r == D.Err && builder == null
            case Panics => r == D.Panics && builder == null
  {
    builder := null;
    if e[11] >= D.ATTR_END {
      return null, D.Err;
    }
    if e[11] == D.ATTR_LFN {
      var started := new DirEntryBuilder();
      var ok := started.ReadLfnEntry(e);
      match ok
      case Ok(_) => return started, D.Ok(None);
      case Err => return null, D.Err;
      case Panics => return null, D.Panics;
    }
    var standard := D.ReadStandardEntry(t, e);
    r := if standard.Ok? then D.Ok(Some(standard.value)) else D.Err;
  }

  ghost function BuilderView(builder: DirEntryBuilder?): Option<D.Builder>
    reads builder
  {
    if builder == null then None else Some(builder.View())
  }

  /** Parse raw entries: start a builder at a long-name entry, feed it until it is complete. */
  method ParseEntries(t: D.Text, es: seq<Entry>) returns (out: seq<D.Result<D.DirEntry>>)
    ensures out == D.Parsed(t, None, es)
  {
    out := [];
    var builder: DirEntryBuilder? := null;
    var i := 0;
    assert es[0..] == es;
    while i < |es|
      invariant 0 <= i <= |es| && (builder != null ==> fresh(builder))
      invariant out + D.Parsed(t, BuilderView(builder), es[i..]) == D.Parsed(t, None, es)
    {
      ghost var b := BuilderView(builder);
      ParsedOne(t, b, es[i..], out);
      assert es[i..][0] == es[i] && es[i..][1..] == es[i + 1..];
      var r;
      if builder == null {
        builder, r := FromEntry(t, es[i]);
      } else {
        r := builder.AddEntry(t, es[i]);
      }
      match r {
        case Ok(None) =>
        case Ok(Some(d)) =>
          out, builder := out + [D.Ok(d)], null;
        case Err =>
          out, builder := out + [D.Err], null;
        case Panics =>
          return out + [D.Panics];
      }
      i := i + 1;
    }
  }

  /** What one more entry adds to the output. */
  lemma ParsedOne(t: D.Text, b: Option<D.Builder>, es: seq<Entry>, out: seq<D.Result<D.DirEntry>>)
    requires es != []
    ensures var all := out + D.Parsed(t, b, es);
            match D.OneStep(t, b, es[0])
            case Ok(More(b')) => all == out + D.Parsed(t, Some(b'), es[1..])
            case Ok(Final(d)) => all == out + [D.Ok(d)] + D.Parsed(t, None, es[1..])
            case Err => all == out + [D.Err] + D.Parsed(t, None, es[1..])
            case Panics => all == out + [D.Panics]
  {
    hide D.OneStep;
  }

  /** Everything the directory iterator yields. */
  method DirEntryIter(t: D.Text, disk: nat -> Sector, b: Bpb, clusters: seq<nat>) returns (out: seq<D.Result<D.DirEntry>>)
    requires OnVolume(b, clusters)
    ensures out == D.Parsed(t, None, UpToEnd(EntriesIn(ChainBytes(disk, b, clusters))))
  {
    var es := RawEntries(disk, b, clusters);
    out := ParseEntries(t, es);
  }

  // ------------------------------------------------------------- from disk to names

  /** Entries laid out one after the other. */
  function Flat(es: seq<Entry>): (r: seq<Byte>)
    ensures |r| == |es| * D.DIR_ENTRY_SIZE
  {
    if es == [] then [] else es[0] + Flat(es[1..])
  }

  lemma Shifted(a: seq<Byte>, b: seq<Byte>, lo: nat, hi: nat)
    requires lo <= hi <= |b|
    ensures (a + b)[|a| + lo..|a| + hi] == b[lo..hi]
  {
  }

  lemma {:induction false} FlatEntry(es: seq<Entry>, tail: seq<Byte>, i: nat)
    requires i < |es|
    ensures EntryIn(Flat(es) + tail, i) == es[i]
  {
    var first: seq<Byte>, rest: seq<Byte> := es[0], Flat(es[1..]) + tail;
    assert Flat(es) + tail == first + rest;
    if i == 0 {
      assert (first + rest)[..D.DIR_ENTRY_SIZE] == first;
    } else {
      FlatEntry(es[1..], tail, i - 1);
      Shifted(first, rest, (i - 1) * D.DIR_ENTRY_SIZE, i * D.DIR_ENTRY_SIZE);
    }
  }

  /** A directory that holds these entries and then ends, in whatever sectors and clusters they fall. */
  ghost predicate Holds(bytes: seq<Byte>, es: seq<Entry>) {
    && |Flat(es)| <= |bytes| && bytes[..|Flat(es)|] == Flat(es)
    && (|bytes| >= |Flat(es)| + D.DIR_ENTRY_SIZE ==> bytes[|Flat(es)|] == 0)
  }

  lemma HeldEntries(bytes: seq<Byte>, es: seq<Entry>)
    requires Holds(bytes, es) && forall i | 0 <= i < |es| :: es[i][0] != 0
    ensures UpToEnd(EntriesIn(bytes)) == es
  {
    var n := |es|;
    var tail := bytes[|Flat(es)|..];
    assert bytes == Flat(es) + tail;
    forall i | 0 <= i < n ensures EntriesIn(bytes)[i] == es[i] { FlatEntry(es, tail, i); }
    if n < |EntriesIn(bytes)| { assert EntriesIn(bytes)[n][0] == bytes[n * D.DIR_ENTRY_SIZE]; }
    UpToEndIs(EntriesIn(bytes), n);
    assert EntriesIn(bytes)[..n] == es;
  }

  lemma {:induction false} GroupNeverEnds(t: D.Text, f: D.File, k: nat, i: nat)
    requires D.ValidFile(t, f) && k <= D.Parts(f) < 0x20 && i < |D.EntriesFrom(f, k)|
    ensures D.EntriesFrom(f, k)[i][0] != 0
    decreases k
  {
    if k > 0 {
      D.LfnRoundTrip(k, k == D.Parts(f), D.Checksum(f.short[..11]), D.PartOf(f, k));
      if i > 0 { GroupNeverEnds(t, f, k - 1, i - 1); }
    }
  }

  lemma {:induction false} EncodedNeverEnds(t: D.Text, files: seq<D.File>, i: nat)
    requires (forall i | 0 <= i < |files| :: D.ValidFile(t, files[i])) && i < |D.Encoded(t, files)|
    ensures D.Encoded(t, files)[i][0] != 0
    decreases |files|
  {
    hide D.EntriesFrom, D.Encoded, D.ValidFile, D.Parts;
    var group := FirstGroup(t, files);
    if i < |group| {
      FirstNeverEnds(t, files[0], group, i);
    } else {
      EncodedNeverEnds(t, files[1..], i - |group|);
    }
  }

  /** An encoded directory begins with the entries of its first file. */
  lemma FirstGroup(t: D.Text, files: seq<D.File>) returns (group: seq<Entry>)
    requires (forall i | 0 <= i < |files| :: D.ValidFile(t, files[i])) && D.Encoded(t, files) != []
    ensures files != [] && D.Encoded(t, files) == group + D.Encoded(t, files[1..])
    ensures D.Parts(files[0]) < 0x20 && group == D.EntriesFrom(files[0], D.Parts(files[0]))
  {
    D.PartsSmall(t, files[0]);
    group := D.EntriesFrom(files[0], D.Parts(files[0]));
  }

  lemma FirstNeverEnds(t: D.Text, f: D.File, group: seq<Entry>, i: nat)
    requires D.ValidFile(t, f) && D.Parts(f) < 0x20 && group == D.EntriesFrom(f, D.Parts(f)) && i < |group|
    ensures group[i][0] != 0
  {
    GroupNeverEnds(t, f, D.Parts(f), i);
  }

  /** Whatever clusters and sectors an encoded directory lies in, reading it gives back its files. */
  lemma DirectoryReadsBack(t: D.Text, disk: nat -> Sector, b: Bpb, clusters: seq<nat>, files: seq<D.File>)
    requires OnVolume(b, clusters) && forall i | 0 <= i < |files| :: D.ValidFile(t, files[i])
    requires Holds(ChainBytes(disk, b, clusters), D.Encoded(t, files))
    ensures D.Parsed(t, None, UpToEnd(EntriesIn(ChainBytes(disk, b, clusters)))) == D.AllEntered(t, files)
  {
    var es := D.Encoded(t, files);
    forall i | 0 <= i < |es| ensures es[i][0] != 0 { EncodedNeverEnds(t, files, i); }
    HeldEntries(ChainBytes(disk, b, clusters), es);
    D.ParseUndoesEncode(t, files);
  }
}
