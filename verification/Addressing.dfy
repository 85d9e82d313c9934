/** Addresses, page-table indexes and page-table entries of the RISC-V Sv32 and
    Sv39 layouts. A `usize` is a `nat` below `WordLimit`; shifts and masks by
    constants are written as division, remainder and multiplication. */
module Addressing {

  datatype Arch = Sv32 | Sv39

  const PAGE_SIZE: nat := 4096
  const PHYS_MEM_BASE: nat := 0x8000_0000

  function WordLimit(arch: Arch): nat {
    if arch.Sv32? then 0x1_0000_0000 else 0x1_0000_0000_0000_0000
  }

  function PhysMemLimit(arch: Arch): nat {
    if arch.Sv32? then 0xC000_0000 else 0x20_0000_0000
  }

  function RemapOffset(arch: Arch): nat {
    if arch.Sv32? then 0 else 0xFFFF_FFC0_0000_0000
  }

  function Levels(arch: Arch): nat {
    if arch.Sv32? then 2 else 3
  }

  /** Entries per table: `PAGE_SIZE / size_of::<usize>()`. */
  function Fanout(arch: Arch): nat {
    if arch.Sv32? then 1024 else 512
  }

  function PageDown(a: nat): nat {
    a / PAGE_SIZE * PAGE_SIZE
  }

  function ToVirt(arch: Arch, pa: nat): nat {
    pa + RemapOffset(arch)
  }

  function Indexes(arch: Arch, va: nat): (ix: seq<nat>)
    ensures |ix| == Levels(arch)
    ensures forall i | 0 <= i < |ix| :: ix[i] < Fanout(arch)
  {
    match arch
    case Sv32 => [va / 0x40_0000 % 0x400, va / 0x1000 % 0x400]
    case Sv39 => [va / 0x4000_0000 % 0x200, va / 0x20_0000 % 0x200, va / 0x1000 % 0x200]
  }

  /** Sv32 translates all 32 bits; Sv39 requires bits 63..39 to equal bit 38. */
  predicate Canonical(arch: Arch, va: nat) {
    match arch
    case Sv32 => va < 0x1_0000_0000
    case Sv39 => va < 0x40_0000_0000 || 0xFFFF_FFC0_0000_0000 <= va < 0x1_0000_0000_0000_0000
  }

  predicate IsPage(arch: Arch, va: nat) {
    Canonical(arch, va) && va % PAGE_SIZE == 0
  }

  /** A frame of usable physical memory: page-aligned and inside the remapped range. */
  predicate IsFrame(arch: Arch, pa: nat) {
    PHYS_MEM_BASE <= pa < PhysMemLimit(arch) && pa % PAGE_SIZE == 0
  }

  /** The page number inside the translated bits, rebuilt from the indexes. */
  function PageNumber(arch: Arch, ix: seq<nat>): nat
    requires |ix| == Levels(arch)
  {
    if arch.Sv32? then ix[0] * 0x400 + ix[1] else (ix[0] * 0x200 + ix[1]) * 0x200 + ix[2]
  }

  lemma SplitDigit(q: nat, d: nat)
    requires d == 0x200 || d == 0x400
    ensures q == q / d * d + q % d
  {
  }

  lemma LowDigits32(q: nat)
    ensures q / 0x400 % 0x400 * 0x400 + q % 0x400 == q % 0x10_0000
  {
    SplitDigit(q, 0x400);
    SplitDigit(q / 0x400, 0x400);
    Residue(q, q / 0x400 / 0x400, 0x10_0000, q / 0x400 % 0x400 * 0x400 + q % 0x400);
  }

  lemma LowDigits39(q: nat)
    ensures (q / 0x4_0000 % 0x200 * 0x200 + q / 0x200 % 0x200) * 0x200 + q % 0x200 == q % 0x800_0000
  {
    var top, high, mid, low := q / 0x4_0000 / 0x200, q / 0x4_0000 % 0x200, q / 0x200 % 0x200, q % 0x200;
    SplitDigit(q, 0x200);
    SplitDigit(q / 0x200, 0x200);
    assert q / 0x200 / 0x200 == q / 0x4_0000;
    SplitDigit(q / 0x4_0000, 0x200);
    Residue(q, top, 0x800_0000, (high * 0x200 + mid) * 0x200 + low);
  }

  lemma Residue(q: nat, top: nat, d: nat, r: nat)
    requires (d == 0x10_0000 || d == 0x800_0000) && r < d && q == top * d + r
    ensures q % d == r
  {
    if d == 0x10_0000 {
      assert q == top * 0x10_0000 + r;
    } else {
      assert q == top * 0x800_0000 + r;
    }
  }

  lemma PageNumberOf(arch: Arch, va: nat)
    ensures PageNumber(arch, Indexes(arch, va)) ==
            va / 0x1000 % (if arch.Sv32? then 0x10_0000 else 0x800_0000)
  {
    var q := va / 0x1000;
    if arch.Sv32? {
      assert va / 0x40_0000 == q / 0x400;
      LowDigits32(q);
    } else {
      assert va / 0x20_0000 == q / 0x200;
      assert va / 0x4000_0000 == q / 0x4_0000;
      LowDigits39(q);
    }
  }

  /** A canonical page number is recovered from its translated bits. */
  lemma CanonicalNumber(arch: Arch, va: nat)
    requires IsPage(arch, va)
    ensures var low := va / 0x1000 % (if arch.Sv32? then 0x10_0000 else 0x800_0000);
            va == 0x1000 * (if arch.Sv39? && low >= 0x400_0000 then low + 0xF_FFFF_F800_0000 else low)
  {
    var q := va / 0x1000;
    assert va == 0x1000 * q;
    if arch.Sv39? && va >= 0x40_0000_0000 {
      var r := q - 0xF_FFFF_F800_0000;
      assert 0x400_0000 <= r < 0x800_0000;
      assert q == 0x1FF_FFFF * 0x800_0000 + r;
    }
  }

  /** Two canonical pages with the same indexes are the same page. */
  lemma IndexesInjective(arch: Arch, a: nat, b: nat)
    requires IsPage(arch, a) && IsPage(arch, b)
    requires Indexes(arch, a) == Indexes(arch, b)
    ensures a == b
  {
    PageNumberOf(arch, a);
    PageNumberOf(arch, b);
    CanonicalNumber(arch, a);
    CanonicalNumber(arch, b);
  }

  /** Root indexes covered by the linear map of physical memory. */
  predicate WindowIndex(arch: Arch, i: nat) {
    if arch.Sv32? then 512 <= i < 768 else 258 <= i < 384
  }

  lemma FrameInWindow(arch: Arch, pa: nat)
    requires IsFrame(arch, pa)
    ensures WindowIndex(arch, Indexes(arch, ToVirt(arch, pa))[0])
  {
    var va := ToVirt(arch, pa);
    if arch.Sv32? {
      assert va / 0x40_0000 < 768;
    } else {
      assert 0xFFFF_FFC0_8000_0000 <= va < 0xFFFF_FFE0_0000_0000;
      assert 0x3_FFFF_FF02 <= va / 0x4000_0000 < 0x3_FFFF_FF80;
    }
  }

  /** A frame with root index `i` of the window. */
  lemma WindowFrame(arch: Arch, i: nat) returns (pa: nat)
    requires WindowIndex(arch, i)
    ensures IsFrame(arch, pa) && Indexes(arch, ToVirt(arch, pa))[0] == i
  {
    if arch.Sv32? {
      pa := i * 0x40_0000;
    } else {
      pa := (i - 256) * 0x4000_0000;
      var root := 0x3_FFFF_FE00 + i;
      assert ToVirt(arch, pa) == root * 0x4000_0000;
      assert root == 0x1FF_FFFF * 0x200 + i;
      RootIndex(root, i);
    }
  }

  lemma RootIndex(root: nat, i: nat)
    requires i < 0x200 && root == 0x1FF_FFFF * 0x200 + i
    ensures root * 0x4000_0000 / 0x4000_0000 % 0x200 == i
  {
  }

  /** The window is no wider than physical memory needs: each of its root indexes is that of some frame. */
  lemma WindowExactly(arch: Arch, i: nat)
    ensures WindowIndex(arch, i) <==> exists pa :: IsFrame(arch, pa) && Indexes(arch, ToVirt(arch, pa))[0] == i
  {
    if WindowIndex(arch, i) {
      var pa := WindowFrame(arch, i);
      assert IsFrame(arch, pa);
    }
    forall pa | IsFrame(arch, pa)
      ensures WindowIndex(arch, Indexes(arch, ToVirt(arch, pa))[0])
    {
      FrameInWindow(arch, pa);
    }
  }

  // ----- page-table entries

  /** The eight `PagePerm` flags, lowest bit first. */
  datatype Perm = Perm(v: bool, r: bool, w: bool, x: bool, u: bool, g: bool, a: bool, d: bool)

  /** A binary numeral with lowest digit `b` and higher digits `q`. */
  function Digit(b: bool, q: nat): nat {
    (if b then 1 else 0) + 2 * q
  }

  /** The flags of `p` as the low eight bits of a word whose higher bits are `high`. */
  function PermBits(p: Perm, high: nat): nat {
    Digit(p.v, Digit(p.r, Digit(p.w, Digit(p.x, Digit(p.u, Digit(p.g, Digit(p.a, Digit(p.d, high))))))))
  }

  function Half(word: nat): nat {
    word / 2
  }

  /** `from_bits_truncate` keeps the low eight bits. */
  function PermOf(word: nat): Perm {
    var b1 := Half(word);
    var b2 := Half(b1);
    var b3 := Half(b2);
    var b4 := Half(b3);
    var b5 := Half(b4);
    var b6 := Half(b5);
    var b7 := Half(b6);
    Perm(word % 2 == 1, b1 % 2 == 1, b2 % 2 == 1, b3 % 2 == 1,
         b4 % 2 == 1, b5 % 2 == 1, b6 % 2 == 1, b7 % 2 == 1)
  }

  /** What `set` stores for a requested permission: R brings A, W brings D. */
  function Closure(p: Perm): Perm {
    p.(a := p.a || p.r, d := p.d || p.w)
  }

  /** `q` is what the hardware should find where `p` was asked for: the same flags, with the accessed bit if readable
      and the dirty bit if writable. */
  predicate Accessible(p: Perm, q: Perm) {
    && q.v == p.v && q.r == p.r && q.w == p.w && q.x == p.x && q.u == p.u && q.g == p.g
    && q.a == (p.a || p.r) && q.d == (p.d || p.w)
  }

  const TABLE_PERM := Perm(true, false, false, false, false, false, false, false)

  /** `PageTableEntry::set`: the page-aligned address shifted right by two, or-ed with
      the permission bits. The address contributes nothing below bit ten, so the
      permission is the low eight digits and the address the digits above them. */
  function EntryBits(pa: nat, p: Perm): nat {
    PermBits(Closure(p), PageDown(pa) / 4 / 256)
  }

  predicate EntryValid(word: nat) {
    word % 2 == 1
  }

  function EntryPhys(arch: Arch, word: nat): nat {
    PageDown(word * 4 % WordLimit(arch))
  }

  lemma DigitLaw(b: bool, q: nat)
    ensures Half(Digit(b, q)) == q
    ensures Digit(b, q) % 2 == 1 <==> b
  {
  }

  lemma PermRoundTrip(p: Perm, high: nat)
    ensures PermOf(PermBits(p, high)) == p
  {
    var d7 := Digit(p.d, high);
    var d6 := Digit(p.a, d7);
    var d5 := Digit(p.g, d6);
    var d4 := Digit(p.u, d5);
    var d3 := Digit(p.x, d4);
    var d2 := Digit(p.w, d3);
    var d1 := Digit(p.r, d2);
    DigitLaw(p.v, d1);
    DigitLaw(p.r, d2);
    DigitLaw(p.w, d3);
    DigitLaw(p.x, d4);
    DigitLaw(p.u, d5);
    DigitLaw(p.g, d6);
    DigitLaw(p.a, d7);
    DigitLaw(p.d, high);
  }

  lemma PermBitsBounds(p: Perm, high: nat)
    ensures 256 * high <= PermBits(p, high) < 256 * high + 256
  {
  }

  /** Decoding an encoded entry gives back the page-aligned address and the closed permission. */
  lemma EntryRoundTrip(arch: Arch, pa: nat, p: Perm)
    requires pa < WordLimit(arch)
    ensures EntryPhys(arch, EntryBits(pa, p)) == PageDown(pa)
    ensures PermOf(EntryBits(pa, p)) == Closure(p) && Accessible(p, PermOf(EntryBits(pa, p)))
    ensures EntryValid(EntryBits(pa, p)) <==> p.v
  {
    var ppn := pa / PAGE_SIZE;
    assert PageDown(pa) / 4 / 256 == 4 * ppn;
    PermRoundTrip(Closure(p), 4 * ppn);
    PermBitsBounds(Closure(p), 4 * ppn);
    AddressBits(arch, ppn, EntryBits(pa, p));
  }

  lemma Quotient(q: nat, r: nat)
    requires r < PAGE_SIZE
    ensures (q * PAGE_SIZE + r) / PAGE_SIZE == q
  {
  }

  /** Any word whose bits from ten up are `ppn` decodes to frame number `ppn`. */
  lemma AddressBits(arch: Arch, ppn: nat, word: nat)
    requires ppn * PAGE_SIZE < WordLimit(arch)
    requires 1024 * ppn <= word < 1024 * ppn + 256
    ensures EntryPhys(arch, word) == ppn * PAGE_SIZE
  {
    var limit := if arch.Sv32? then 0x10_0000 else 0x10_0000_0000_0000;
    assert ppn < limit;
    var low := word * 4 - ppn * PAGE_SIZE;
    assert word * 4 == ppn * PAGE_SIZE + low && 0 <= low < 1024;
    assert word * 4 % WordLimit(arch) == word * 4;
    Quotient(ppn, low);
  }

  // ----- the layouts, digit by digit

  function Flag(b: bool): nat {
    if b then 1 else 0
  }

  /** The entry as section 4.4.1 (and 4.3.1) of the RISC-V Privileged Architecture lays it out: the frame number from
      bit ten up, then two reserved zeros, then D, A, G, U, X, W, R and V. */
  lemma EntryLayout(pa: nat, p: Perm)
    ensures EntryBits(pa, p) ==
            pa / 4096 * 1024 + 128 * Flag(p.d || p.w) + 64 * Flag(p.a || p.r) + 32 * Flag(p.g) + 16 * Flag(p.u)
            + 8 * Flag(p.x) + 4 * Flag(p.w) + 2 * Flag(p.r) + Flag(p.v)
  {
    assert PageDown(pa) / 4 / 256 == 4 * (pa / 4096);
  }

  /** The indexes of an address, with the page offset, are the digits of its translated bits. */
  lemma IndexLayout(arch: Arch, va: nat)
    ensures var ix := Indexes(arch, va);
            match arch
            case Sv32 => va % 0x1_0000_0000 == ix[0] * 0x40_0000 + ix[1] * 0x1000 + va % 0x1000
            case Sv39 => va % 0x80_0000_0000 == ix[0] * 0x4000_0000 + ix[1] * 0x20_0000 + ix[2] * 0x1000 + va % 0x1000
  {
    PageNumberOf(arch, va);
    var q := va / 0x1000;
    if arch.Sv32? {
      PageDigits(va, 0x10_0000);
    } else {
      PageDigits(va, 0x800_0000);
    }
  }

  lemma PageDigits(va: nat, d: nat)
    requires d == 0x10_0000 || d == 0x800_0000
    ensures va % (d * 0x1000) == va / 0x1000 % d * 0x1000 + va % 0x1000
  {
    var q := va / 0x1000;
    if d == 0x10_0000 {
      assert q == q / 0x10_0000 * 0x10_0000 + q % 0x10_0000;
    } else {
      assert q == q / 0x800_0000 * 0x800_0000 + q % 0x800_0000;
    }
  }

  lemma PageDownSpec(a: nat)
    ensures PageDown(a) % 4096 == 0 && PageDown(a) <= a < PageDown(a) + 4096
  {
  }
}
