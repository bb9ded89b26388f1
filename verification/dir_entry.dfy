/** Directory entries with long names: the builder that reads them, and an encoder it undoes.
    Format: section "FAT Long Directory Entries" of the Microsoft FAT32 File System Specification 1.03. */
module DirEntries {
  import opened Common
  import opened Sv39

  const DIR_ENTRY_SIZE := 32
  const LNAME_PART_LEN := 13
  const ATTR_LFN := 0x0f
  const ATTR_END := 0x40
  const FINAL_FLAG := 0x40
  const SPACE: Byte := 0x20

  type Entry = e: seq<Byte> | |e| == DIR_ENTRY_SIZE witness seq(DIR_ENTRY_SIZE, _ => 0)

  /** `Err` is EINVAL; `Panics` is an index the kernel would stop at. */
  datatype Result<T> = Ok(value: T) | Err | Panics

  /** The text decoders of the platform library: which bytes and which 16-bit units they take. */
  datatype Text = Text(utf8: seq<Byte> -> bool, utf16: seq<nat> -> bool)

  datatype DirEntry = DirEntry(body: seq<Byte>, ext: seq<Byte>, longName: seq<nat>, attr: nat, createTenMs: nat, createTime: nat,
                               createDate: nat, accessDate: nat, firstClusterId: nat, modifyTime: nat, modifyDate: nat, fileSize: nat)

  function Unit(e: Entry, p: nat): nat
    requires p + 1 < DIR_ENTRY_SIZE
  {
    var hi: int := e[p + 1];
    e[p] + 0x100 * hi
  }

  /** Where the `i`-th unit of a long-name entry stands. */
  function UnitPos(i: nat): (p: nat)
    requires i < LNAME_PART_LEN
    ensures p + 1 < DIR_ENTRY_SIZE
  {
    if i < 5 then 1 + 2 * i else if i < 11 then 14 + 2 * (i - 5) else 28 + 2 * (i - 11)
  }

  function LfnPart(e: Entry): (r: seq<nat>)
    ensures |r| == LNAME_PART_LEN
  {
    seq(LNAME_PART_LEN, i requires 0 <= i < LNAME_PART_LEN => Unit(e, UnitPos(i)))
  }

  /** Rotate right, then add, byte by byte. */
  function Checksum(name: seq<Byte>): (c: nat)
    ensures c < 0x100
  {
    if name == [] then 0 else
      var c := Checksum(name[..|name| - 1]);
      (c / 2 + c % 2 * 0x80 + name[|name| - 1]) % 0x100
  }

  /** The length of a field without its trailing spaces. */
  function TrimmedLen(s: seq<Byte>): (n: nat)
    ensures n <= |s| && (n > 0 ==> s[n - 1] != SPACE) && forall i | n <= i < |s| :: s[i] == SPACE
  {
    if s == [] || s[|s| - 1] != SPACE then |s| else TrimmedLen(s[..|s| - 1])
  }

  function ReadStandardEntry(t: Text, e: Entry): Result<DirEntry> {
    var body := e[..TrimmedLen(e[..8])];
    var ext := e[8..8 + TrimmedLen(e[8..11])];
    if !t.utf8(body) || !t.utf8(ext) || e[11] >= ATTR_END then Err
    else Ok(DirEntry(body, ext, [], e[11], e[13], Unit(e, 14), Unit(e, 16), Unit(e, 18),
                     Unit(e, 26) + 0x1_0000 * Unit(e, 20), Unit(e, 22), Unit(e, 24), Unit(e, 28) + 0x1_0000 * Unit(e, 30)))
  }

  datatype Builder = Builder(order: nat, checksum: nat, name: seq<nat>)

  function Resized(name: seq<nat>, n: nat): (r: seq<nat>)
    ensures |r| == n
  {
    if n <= |name| then name[..n] else name + seq(n - |name|, _ => 0)
  }

  /** The order an entry names; its part of the name ends at order * 13. */
  function OrderOf(e: Entry): nat { e[0] % 0x20 }
  predicate MarkedFinal(e: Entry) { e[0] / 0x40 % 2 == 1 }

  function NameAfterSize(b: Builder, e: Entry): seq<nat> {
    if b.order == 0 then Resized(b.name, OrderOf(e) * LNAME_PART_LEN) else b.name
  }

  /** Read one long-name entry. */
  function ReadLfn(b: Builder, e: Entry): Result<Builder> {
    var order, first := OrderOf(e), b.order == 0;
    var name := NameAfterSize(b, e);
    if !first && order != b.order - 1 then Err
    else if first != MarkedFinal(e) then Err
    else if e[12] != 0 || e[26] != 0 || e[27] != 0 then Err
    else if !first && b.checksum != e[13] then Err
    else if order == 0 || order * LNAME_PART_LEN > |name| then Panics
    else Ok(Builder(order, e[13], WithPart(name, order, LfnPart(e))))
  }

  function WithPart(name: seq<nat>, order: nat, part: seq<nat>): (r: seq<nat>)
    requires order > 0 && order * LNAME_PART_LEN <= |name| && |part| == LNAME_PART_LEN
    ensures |r| == |name|
  {
    name[..(order - 1) * LNAME_PART_LEN] + part + name[order * LNAME_PART_LEN..]
  }

  /** The units before the first zero. */
  function UntilZero(name: seq<nat>): (r: seq<nat>)
    ensures |r| <= |name| && r == name[..|r|] && (forall i | 0 <= i < |r| :: r[i] != 0) && (|r| < |name| ==> name[|r|] == 0)
  {
    if name == [] || name[0] == 0 then [] else [name[0]] + UntilZero(name[1..])
  }

  datatype Progress = More(builder: Builder) | Final(entry: DirEntry)

  function MapMore(r: Result<Builder>): Result<Progress> {
    match r
    case Ok(b) => Ok(More(b))
    case Err => Err
    case Panics => Panics
  }

  function FromEntry(t: Text, e: Entry): Result<Progress> {
    if e[11] >= ATTR_END then Err
    else if e[11] == ATTR_LFN then MapMore(ReadLfn(Builder(0, 0, []), e))
    else match ReadStandardEntry(t, e)
         case Ok(d) => Ok(Final(d))
         case Err => Err
         case Panics => Panics
  }

  function AddEntry(t: Text, b: Builder, e: Entry): Result<Progress> {
    if e[11] >= ATTR_END then Err
    else if e[11] % 0x10 == ATTR_LFN then MapMore(ReadLfn(b, e))
    else if b.order != 1 then Err
    else match ReadStandardEntry(t, e)
         case Err => Err
         case Panics => Panics
         case Ok(d) =>
           if b.checksum != Checksum(e[..11]) || !t.utf16(UntilZero(b.name)) then Err
           else Ok(Final(d.(longName := UntilZero(b.name))))
  }

  function OneStep(t: Text, b: Option<Builder>, e: Entry): Result<Progress> {
    if b.None? then FromEntry(t, e) else AddEntry(t, b.value, e)
  }

  /** Everything the iterator yields from these raw entries. A long name cut off by the end of the
      directory yields nothing; a panic ends it all. */
  function Parsed(t: Text, b: Option<Builder>, es: seq<Entry>): seq<Result<DirEntry>>
    decreases |es|
  {
    if es == [] then [] else
      match OneStep(t, b, es[0])
      case Ok(More(b')) => Parsed(t, Some(b'), es[1..])
      case Ok(Final(d)) => [Ok(d)] + Parsed(t, None, es[1..])
      case Err => [Err] + Parsed(t, None, es[1..])
      case Panics => [Panics]
  }

  // ------------------------------------------------------------------- encoder

  datatype File = File(name: seq<nat>, short: Entry)

  /** A name of 1 to 255 units, none zero, and a short entry the decoders take. */
  ghost predicate ValidFile(t: Text, f: File) {
    && 1 <= |f.name| <= 255 && (forall i | 0 <= i < |f.name| :: 0 < f.name[i] < 0x1_0000) && t.utf16(f.name)
    && f.short[0] != 0 && f.short[11] < ATTR_END && f.short[11] % 0x10 != ATTR_LFN && ReadStandardEntry(t, f.short).Ok?
  }

  function Parts(f: File): nat { (|f.name| + LNAME_PART_LEN - 1) / LNAME_PART_LEN }

  /** The name closed by a zero and filled up with 0xFFFF, as far as its parts reach. */
  function Padded(f: File): (r: seq<nat>)
    ensures |r| == Parts(f) * LNAME_PART_LEN
  {
    seq(Parts(f) * LNAME_PART_LEN, i requires 0 <= i => if i < |f.name| then f.name[i] else if i == |f.name| then 0 else 0xffff)
  }

  function UnitBytes(us: seq<nat>): (r: seq<Byte>)
    requires forall i | 0 <= i < |us| :: us[i] < 0x1_0000
    ensures |r| == 2 * |us|
  {
    seq<Byte>(2 * |us|, i requires 0 <= i < 2 * |us| => if i % 2 == 0 then us[i / 2] % 0x100 else us[i / 2] / 0x100)
  }

  function LfnEntry(order: nat, last: bool, checksum: nat, part: seq<nat>): Entry
    requires 0 < order < 0x20 && checksum < 0x100 && |part| == LNAME_PART_LEN && forall i | 0 <= i < |part| :: part[i] < 0x1_0000
  {
    [if last then order + FINAL_FLAG else order] + UnitBytes(part[..5]) + [ATTR_LFN, 0, checksum] + UnitBytes(part[5..11]) +
    [0, 0] + UnitBytes(part[11..])
  }

  function PartOf(f: File, order: nat): (r: seq<nat>)
    requires 0 < order <= Parts(f) && forall i | 0 <= i < |f.name| :: f.name[i] < 0x1_0000
    ensures |r| == LNAME_PART_LEN && forall i | 0 <= i < |r| :: r[i] < 0x1_0000
  {
    Padded(f)[(order - 1) * LNAME_PART_LEN..order * LNAME_PART_LEN]
  }

  /** The entries of a file from part `order` down to its short entry. */
  function EntriesFrom(f: File, order: nat): seq<Entry>
    requires order <= Parts(f) < 0x20 && forall i | 0 <= i < |f.name| :: f.name[i] < 0x1_0000
  {
    if order == 0 then [f.short]
    else [LfnEntry(order, order == Parts(f), Checksum(f.short[..11]), PartOf(f, order))] + EntriesFrom(f, order - 1)
  }

  // --------------------------------------------------------- parsing undoes encoding

  lemma UnitOf(us: seq<nat>, e: seq<Byte>, p: nat, i: nat)
    requires (forall i | 0 <= i < |us| :: us[i] < 0x1_0000) && p + 2 * |us| <= |e| && i < |us|
    requires e[p..p + 2 * |us|] == UnitBytes(us)
    ensures var hi: int := e[p + 2 * i + 1]; e[p + 2 * i] + 0x100 * hi == us[i]
  {
    assert e[p..p + 2 * |us|][2 * i] == e[p + 2 * i];
    assert e[p..p + 2 * |us|][2 * i + 1] == e[p + 2 * i + 1];
  }

  ghost predicate Units(part: seq<nat>) {
    |part| == LNAME_PART_LEN && forall i | 0 <= i < |part| :: part[i] < 0x1_0000
  }

  lemma LfnLayout(order: nat, last: bool, checksum: nat, part: seq<nat>)
    requires 0 < order < 0x20 && checksum < 0x100 && Units(part)
    ensures var e := LfnEntry(order, last, checksum, part);
            && e[1..11] == UnitBytes(part[..5]) && e[14..26] == UnitBytes(part[5..11]) && e[28..32] == UnitBytes(part[11..])
            && e[0] == (if last then order + FINAL_FLAG else order)
            && e[11] == ATTR_LFN && e[12] == 0 && e[13] == checksum && e[26] == 0 && e[27] == 0
  {
  }

  lemma PartFrom(e: Entry, part: seq<nat>)
    requires Units(part)
    requires e[1..11] == UnitBytes(part[..5]) && e[14..26] == UnitBytes(part[5..11]) && e[28..32] == UnitBytes(part[11..])
    ensures LfnPart(e) == part
  {
    forall i | 0 <= i < LNAME_PART_LEN ensures LfnPart(e)[i] == part[i] {
      if i < 5 {
        UnitOf(part[..5], e, 1, i);
      } else if i < 11 {
        UnitOf(part[5..11], e, 14, i - 5);
      } else {
        UnitOf(part[11..], e, 28, i - 11);
      }
    }
  }

  /** A long-name entry carries its part of the name, and passes the fixed checks. */
  lemma LfnRoundTrip(order: nat, last: bool, checksum: nat, part: seq<nat>)
    requires 0 < order < 0x20 && checksum < 0x100 && Units(part)
    ensures var e := LfnEntry(order, last, checksum, part);
            && LfnPart(e) == part && OrderOf(e) == order && MarkedFinal(e) == last && e[0] != 0
            && e[11] == ATTR_LFN && e[12] == 0 && e[13] == checksum && e[26] == 0 && e[27] == 0
  {
    LfnLayout(order, last, checksum, part);
    hide LfnEntry, UnitBytes, LfnPart;
    PartFrom(LfnEntry(order, last, checksum, part), part);
  }

  /** A builder that has read the parts of `f` from the last down to `k`. */
  ghost predicate HasRead(f: File, b: Builder, k: nat) {
    && 0 < k <= Parts(f) && b.order == k && b.checksum == Checksum(f.short[..11]) && |b.name| == |Padded(f)|
    && b.name[(k - 1) * LNAME_PART_LEN..] == Padded(f)[(k - 1) * LNAME_PART_LEN..]
  }

  lemma ReadOne(t: Text, f: File, b: Builder, k: nat)
    requires ValidFile(t, f) && 0 < k <= Parts(f) < 0x20
    requires if k == Parts(f) then b == Builder(0, 0, []) else HasRead(f, b, k + 1)
    ensures var r := ReadLfn(b, EntriesFrom(f, k)[0]); r.Ok? && HasRead(f, r.value, k)
  {
    var cs := Checksum(f.short[..11]);
    LfnRoundTrip(k, k == Parts(f), cs, PartOf(f, k));
    hide Checksum, LfnEntry, Padded, Resized, WithPart;
    var name := NameAfterSize(b, EntriesFrom(f, k)[0]);
    PartAdds(f, name, k);
  }

  /** The next part continues a name that is right from there on. */
  lemma PartAdds(f: File, name: seq<nat>, k: nat)
    requires 0 < k <= Parts(f) && (forall i | 0 <= i < |f.name| :: f.name[i] < 0x1_0000) && |name| == |Padded(f)|
    requires name[k * LNAME_PART_LEN..] == Padded(f)[k * LNAME_PART_LEN..]
    ensures WithPart(name, k, PartOf(f, k))[(k - 1) * LNAME_PART_LEN..] == Padded(f)[(k - 1) * LNAME_PART_LEN..]
  {
    hide Padded;
    var lo, hi := (k - 1) * LNAME_PART_LEN, k * LNAME_PART_LEN;
    assert WithPart(name, k, PartOf(f, k))[lo..] == PartOf(f, k) + name[hi..];
    assert Padded(f)[lo..] == PartOf(f, k) + Padded(f)[hi..];
  }

  /** What a file reads as. */
  function Entered(t: Text, f: File): DirEntry
    requires ReadStandardEntry(t, f.short).Ok?
  {
    ReadStandardEntry(t, f.short).value.(longName := f.name)
  }

  lemma {:induction false} UntilZeroIs(name: seq<nat>, n: nat)
    requires n <= |name| && (forall i | 0 <= i < n :: name[i] != 0) && (n < |name| ==> name[n] == 0)
    ensures UntilZero(name) == name[..n]
  {
    if n > 0 { UntilZeroIs(name[1..], n - 1); }
  }

  lemma NameIs(f: File, name: seq<nat>)
    requires |name| == |Padded(f)| && name[0..] == Padded(f)[0..] && forall i | 0 <= i < |f.name| :: 0 < f.name[i]
    ensures UntilZero(name) == f.name
  {
    assert name == name[0..] == Padded(f);
    UntilZeroIs(name, |f.name|);
    assert name[..|f.name|] == f.name;
  }

  lemma PartsSmall(t: Text, f: File)
    requires ValidFile(t, f)
    ensures 0 < Parts(f) <= 20
  {
  }

  lemma Continues(t: Text, b: Option<Builder>, e: Entry, es: seq<Entry>, b': Builder)
    requires OneStep(t, b, e) == Ok(More(b'))
    ensures Parsed(t, b, [e] + es) == Parsed(t, Some(b'), es)
  {
    assert ([e] + es)[1..] == es;
  }

  lemma Completes(t: Text, b: Option<Builder>, e: Entry, es: seq<Entry>, d: DirEntry)
    requires OneStep(t, b, e) == Ok(Final(d))
    ensures Parsed(t, b, [e] + es) == [Ok(d)] + Parsed(t, None, es)
  {
    assert ([e] + es)[1..] == es;
  }

  /** Reading part `k`, with a builder under way or without one for the last part. */
  lemma PartStep(t: Text, f: File, b: Option<Builder>, k: nat) returns (b': Builder)
    requires ValidFile(t, f) && 0 < k <= Parts(f) < 0x20
    requires if k == Parts(f) then b.None? else b.Some? && HasRead(f, b.value, k + 1)
    ensures OneStep(t, b, EntriesFrom(f, k)[0]) == Ok(More(b')) && HasRead(f, b', k)
  {
    var from := if b.None? then Builder(0, 0, []) else b.value;
    ReadOne(t, f, from, k);
    LfnRoundTrip(k, k == Parts(f), Checksum(f.short[..11]), PartOf(f, k));
    hide ReadLfn, HasRead;
    b' := ReadLfn(from, EntriesFrom(f, k)[0]).value;
  }

  lemma ShortStep(t: Text, f: File, b: Builder)
    requires ValidFile(t, f) && HasRead(f, b, 1)
    ensures OneStep(t, Some(b), f.short) == Ok(Final(Entered(t, f)))
  {
    NameIs(f, b.name);
  }

  /** From part `k` on, the parser reads the file out and goes on behind it. */
  lemma {:induction false} RestParsed(t: Text, f: File, b: Option<Builder>, k: nat, rest: seq<Entry>)
    requires ValidFile(t, f) && k <= Parts(f) < 0x20 && 0 < Parts(f)
    requires if k == Parts(f) then b.None? else b.Some? && HasRead(f, b.value, k + 1)
    ensures Parsed(t, b, EntriesFrom(f, k) + rest) == [Ok(Entered(t, f))] + Parsed(t, None, rest)
    decreases k
  {
    hide HasRead, Parsed, OneStep, ReadStandardEntry, LfnEntry;
    if k == 0 {
      ShortStep(t, f, b.value);
      Completes(t, b, f.short, rest, Entered(t, f));
    } else {
      var b' := PartStep(t, f, b, k);
      var e, es := EntriesFrom(f, k)[0], EntriesFrom(f, k - 1) + rest;
      Continues(t, b, e, es, b');
      assert EntriesFrom(f, k) + rest == [e] + es;
      RestParsed(t, f, Some(b'), k - 1, rest);
    }
  }

  /** The entries of a whole directory. */
  ghost function Encoded(t: Text, files: seq<File>): seq<Entry>
    requires forall i | 0 <= i < |files| :: ValidFile(t, files[i])
  {
    if files == [] then [] else
      PartsSmall(t, files[0]);
      EntriesFrom(files[0], Parts(files[0])) + Encoded(t, files[1..])
  }

  ghost function AllEntered(t: Text, files: seq<File>): seq<Result<DirEntry>>
    requires forall i | 0 <= i < |files| :: ValidFile(t, files[i])
  {
    if files == [] then [] else
      assert ValidFile(t, files[0]);
      [Ok(Entered(t, files[0]))] + AllEntered(t, files[1..])
  }

  /** The iterator yields exactly the files encoded, with their long names, in order. */
  lemma {:induction false} ParseUndoesEncode(t: Text, files: seq<File>)
    requires forall i | 0 <= i < |files| :: ValidFile(t, files[i])
    ensures Parsed(t, None, Encoded(t, files)) == AllEntered(t, files)
    decreases |files|
  {
    if files != [] {
      PartsSmall(t, files[0]);
      RestParsed(t, files[0], None, Parts(files[0]), Encoded(t, files[1..]));
      ParseUndoesEncode(t, files[1..]);
    }
  }
}
