/** Sv39 addresses and page-table entries, as the kernel computes them
    (section 4.4 of the RISC-V Privileged Specification, version 20211203).
    Shifts and masks of `usize` values are written as arithmetic on naturals. */
module Sv39 {

  const PAGE_SIZE: nat := 4096
  const PTE_PER_PAGE: nat := 512
  const WORD: nat := 0x1_0000_0000_0000_0000
  /** One past the last physical page number Sv39 can name. */
  const PPN_LIMIT: nat := 0x1000_0000_0000
  /** One past the last virtual page number: 27 bits. */
  const VPN_LIMIT: nat := 0x800_0000
  /** `LOW_ADDRESS_END`, in bytes and in pages: the end of the user half. */
  const LOW_END: nat := 0x40_0000_0000
  const LOW_VPN: nat := 0x400_0000
  /** Root lines below this one belong to the user half. */
  const USER_LINES: nat := 256

  // -------------------------------------------------------------- addresses

  function VpnFloor(addr: nat): (vpn: nat)
    ensures vpn * PAGE_SIZE <= addr < (vpn + 1) * PAGE_SIZE
  {
    addr / PAGE_SIZE
  }

  function VpnCeil(addr: nat): (vpn: nat)
    ensures addr <= vpn * PAGE_SIZE
    ensures vpn * PAGE_SIZE < addr + PAGE_SIZE
  {
    if addr % PAGE_SIZE == 0 then addr / PAGE_SIZE else addr / PAGE_SIZE + 1
  }

  function I0(vpn: nat): (i: nat)
    ensures i < PTE_PER_PAGE
  {
    vpn / 0x4_0000 % PTE_PER_PAGE
  }

  function I1(vpn: nat): (i: nat)
    ensures i < PTE_PER_PAGE
  {
    vpn / PTE_PER_PAGE % PTE_PER_PAGE
  }

  function I2(vpn: nat): (i: nat)
    ensures i < PTE_PER_PAGE
  {
    vpn % PTE_PER_PAGE
  }

  lemma {:induction false} StepApart(a: nat, b: nat, k: nat)
    requires a < b
    ensures a * k + k <= b * k
  {
    if b > a + 1 {
      StepApart(a, b - 1, k);
    }
    assert b * k == (b - 1) * k + k;
  }

  /** A quotient and a remainder are unique. */
  lemma Divided(x: nat, d: nat, q: nat, r: nat)
    requires r < d && x == q * d + r
    ensures x / d == q && x % d == r
  {
    var q', r' := x / d, x % d;
    assert x == q' * d + r';
    if q' > q {
      StepApart(q, q', d);
    } else if q' < q {
      StepApart(q', q, d);
    }
  }

  /** The indexes of a page number, and what is above them. */
  lemma Split(vpn: nat) returns (top: nat)
    ensures vpn == top * VPN_LIMIT + I0(vpn) * 0x4_0000 + I1(vpn) * PTE_PER_PAGE + I2(vpn)
  {
    var a, r2 := vpn / 512, vpn % 512;
    var b, r1 := a / 512, a % 512;
    Divided(vpn, 0x4_0000, b, r1 * 512 + r2);
    top := b / 512;
  }

  lemma IndexesCompose(vpn: nat)
    ensures I0(vpn) * 0x4_0000 + I1(vpn) * PTE_PER_PAGE + I2(vpn) == vpn % VPN_LIMIT
    ensures vpn < LOW_VPN ==> I0(vpn) < USER_LINES
  {
    var top := Split(vpn);
    var i0, i1, i2 := I0(vpn), I1(vpn), I2(vpn);
    hide I0, I1, I2;
    Divided(vpn, VPN_LIMIT, top, i0 * 0x4_0000 + i1 * PTE_PER_PAGE + i2);
  }

  lemma IndexesInjective(u: nat, v: nat)
    requires u < VPN_LIMIT && v < VPN_LIMIT
    requires I0(u) == I0(v) && I1(u) == I1(v) && I2(u) == I2(v)
    ensures u == v
  {
    IndexesCompose(u);
    IndexesCompose(v);
    FromParts(u, I0(u), I1(u), I2(u));
    FromParts(v, I0(u), I1(u), I2(u));
  }

  lemma FromParts(vpn: nat, i0: nat, i1: nat, i2: nat)
    requires vpn < VPN_LIMIT && i0 * 0x4_0000 + i1 * PTE_PER_PAGE + i2 == vpn % VPN_LIMIT
    ensures vpn == i0 * 0x4_0000 + i1 * PTE_PER_PAGE + i2
  {
  }

  lemma TwiceDivided(vpn: nat)
    ensures vpn / PTE_PER_PAGE / PTE_PER_PAGE == vpn / 0x4_0000
  {
    var a := vpn / 512;
    Divided(vpn, 0x4_0000, a / 512, a % 512 * 512 + vpn % 512);
  }

  /** The three table indexes of a page number, root first. */
  method Indexes(vpn: nat) returns (idx: array<nat>)
    ensures fresh(idx) && idx.Length == 3
    ensures forall i | 0 <= i < 3 :: idx[i] < PTE_PER_PAGE
    ensures idx[0] * 0x4_0000 + idx[1] * PTE_PER_PAGE + idx[2] == vpn % VPN_LIMIT
    ensures idx[0] == I0(vpn) && idx[1] == I1(vpn) && idx[2] == I2(vpn)
  {
    idx := new nat[3](_ => 0);
    var rest := vpn;
    var i := 3;
    while i > 0
      invariant 0 <= i <= 3
      invariant forall k | 0 <= k < 3 :: idx[k] < PTE_PER_PAGE
      invariant i == 3 ==> rest == vpn
      invariant i == 2 ==> rest == vpn / 512
      invariant i == 1 ==> rest == vpn / 512 / 512
      invariant i <= 2 ==> idx[2] == I2(vpn)
      invariant i <= 1 ==> idx[1] == I1(vpn)
      invariant i == 0 ==> idx[0] == I0(vpn)
    {
      i := i - 1;
      idx[i] := rest % PTE_PER_PAGE;
      rest := rest / PTE_PER_PAGE;
      TwiceDivided(vpn);
    }
    IndexesCompose(vpn);
  }

  // ----------------------------------------------------------------- entries

  type Byte = b: int | 0 <= b < 256

  const PTE_V: nat := 1

  /** The nine flag bits the kernel names. */
  type Flags = f: nat | f < 512 witness 0

  /** Permission bits R, W, X, U and G of a mapping: bits 1 to 5. */
  type Perm = f: nat | f < 64 && f % 2 == 0 witness 0

  /** `flags | V` for flags that come from a permission. */
  function LeafFlags(perm: Perm): (f: Flags)
    ensures f % 2 == 1
  {
    perm + PTE_V
  }

  /** `(ppn << 10) | flags` on 64-bit words. */
  function PteNew(ppn: nat, flags: Flags): (bits: nat)
    ensures bits < WORD
  {
    ppn * 1024 % WORD + flags
  }

  function PtePpn(bits: nat): (ppn: nat)
    ensures ppn < PPN_LIMIT
  {
    bits / 1024 % PPN_LIMIT
  }

  function PteFlags(bits: nat): Flags { bits % 512 }

  predicate PteValid(bits: nat) { bits % 2 == 1 }

  /** What a valid leaf entry says: a frame and flags. */
  datatype Xlat = Xlat(ppn: nat, flags: Flags)

  function Decode(bits: nat): Xlat { Xlat(PtePpn(bits), PteFlags(bits)) }

  /** An entry gives its flags back always, and its page number exactly when that fits 44 bits. */
  lemma PteRoundTrip(ppn: nat, flags: Flags)
    ensures PteFlags(PteNew(ppn, flags)) == flags
    ensures PtePpn(PteNew(ppn, flags)) == ppn <==> ppn < PPN_LIMIT
    ensures PteValid(PteNew(ppn, flags)) <==> flags % 2 == 1
  {
    var hi, q := ppn % 0x40_0000_0000_0000, ppn / 0x40_0000_0000_0000;
    Divided(ppn * 1024, WORD, q, hi * 1024);
    var bits := PteNew(ppn, flags);
    assert bits == hi * 1024 + flags;
    Divided(bits, 1024, hi, flags);
    Divided(bits, 512, 2 * hi, flags);
    Divided(bits, 2, 512 * hi + flags / 2, flags % 2);
    FitsIff(ppn);
  }

  lemma FitsIff(ppn: nat)
    ensures ppn % 0x40_0000_0000_0000 % PPN_LIMIT == ppn <==> ppn < PPN_LIMIT
  {
  }
}
