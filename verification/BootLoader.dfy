// bootmain.c: finding the multiboot header and loading the kernel image.
// Sections 3.1.1 to 3.1.3 of the Multiboot Specification 0.6.96.
module BootLoader {
  import opened Strings

  const SECT: nat := 512
  const SCRATCH: nat := 0x1_0000
  const HEAD_BYTES: nat := 8192
  const MAGIC: nat := 0x1BAD_B002
  const TWO32: nat := 0x1_0000_0000

  // The disk, byte by byte. The image begins at sector 1.
  type Disk = nat -> byte

  function Image(disk: Disk, o: nat): byte { disk(SECT + o) }

  // readsect, as a copy of one sector
  method Readsect(mem: array<byte>, disk: Disk, dst: nat, sector: nat)
    requires dst + SECT <= mem.Length
    modifies mem
    ensures forall a :: dst <= a < dst + SECT ==> mem[a] == disk(SECT * sector + (a - dst))
    ensures forall a :: 0 <= a < mem.Length && !(dst <= a < dst + SECT) ==> mem[a] == old(mem[a])
  {
    var i := 0;
    while i < SECT
      invariant 0 <= i <= SECT
      invariant forall a :: dst <= a < dst + i ==> mem[a] == disk(SECT * sector + (a - dst))
      invariant forall a :: 0 <= a < mem.Length && !(dst <= a < dst + i) ==> mem[a] == old(mem[a])
    {
      mem[dst + i] := disk(SECT * sector + i);
      i := i + 1;
    }
  }

  // The bytes that readseg writes for [pa, pa+count) from image offset `offset`: from the
  // sector boundary below pa, in whole sectors.
  function SegLo(pa: nat, offset: nat): int { pa - offset % SECT }

  function SegHi(pa: nat, count: nat, offset: nat): int {
    var lo := SegLo(pa, offset);
    if pa + count <= lo then lo else lo + (pa + count - lo + SECT - 1) / SECT * SECT
  }

  ghost predicate SegFits(pa: nat, count: nat, offset: nat, size: nat) {
    0 <= SegLo(pa, offset) && SegHi(pa, count, offset) <= size
  }

  // readseg: every byte written is the image byte that belongs there.
  method Readseg(mem: array<byte>, disk: Disk, pa: nat, count: nat, offset: nat)
    requires SegFits(pa, count, offset, mem.Length)
    modifies mem
    ensures forall a :: SegLo(pa, offset) <= a < SegHi(pa, count, offset) ==> mem[a] == Image(disk, offset + a - pa)
    ensures forall a :: 0 <= a < mem.Length && !(SegLo(pa, offset) <= a < SegHi(pa, count, offset)) ==> mem[a] == old(mem[a])
  {
    var epa := pa + count;
    ghost var lo := SegLo(pa, offset);
    var p, sector := pa - offset % SECT, offset / SECT + 1;
    ghost var k := 0;
    while p < epa
      invariant k >= 0 && p == lo + SECT * k && sector == offset / SECT + 1 + k
      invariant p <= SegHi(pa, count, offset)
      invariant forall a :: lo <= a < p ==> mem[a] == Image(disk, offset + a - pa)
      invariant forall a :: 0 <= a < mem.Length && !(lo <= a < p) ==> mem[a] == old(mem[a])
      decreases epa - p
    {
      SectorStep(pa, count, offset, k);
      Readsect(mem, disk, p, sector);
      assert SECT * sector - p == SECT + offset - pa;
      p, sector, k := p + SECT, sector + 1, k + 1;
    }
    SectorEnd(pa, count, offset, k);
  }

  lemma SectorStep(pa: nat, count: nat, offset: nat, k: nat)
    requires SegLo(pa, offset) + SECT * k < pa + count
    ensures SegLo(pa, offset) + SECT * k + SECT <= SegHi(pa, count, offset)
  {
  }

  lemma SectorEnd(pa: nat, count: nat, offset: nat, k: nat)
    requires pa + count <= SegLo(pa, offset) + SECT * k <= SegHi(pa, count, offset)
    ensures SegLo(pa, offset) + SECT * k == SegHi(pa, count, offset)
  {
  }

  // ---- the header -----------------------------------------------------------------------

  type u32 = x: int | 0 <= x < TWO32

  function Word4(b0: byte, b1: byte, b2: byte, b3: byte): u32 {
    b0 + 0x100 * b1 + 0x1_0000 * b2 + 0x100_0000 * b3
  }

  // The 32-bit word at address a.
  function U32(mem: array<byte>, a: nat): u32
    requires a + 4 <= mem.Length
    reads mem
  {
    Word4(mem[a], mem[a + 1], mem[a + 2], mem[a + 3])
  }

  // struct mbheader
  datatype Header = Header(magic: u32, flags: u32, checksum: u32, headerAddr: u32, loadAddr: u32, loadEnd: u32,
                           bssEnd: u32, entry: u32)

  // The struct in its 32 bytes.
  function HeaderOf(b: seq<byte>): Header
    requires |b| == 32
  {
    Header(Word4(b[0], b[1], b[2], b[3]), Word4(b[4], b[5], b[6], b[7]), Word4(b[8], b[9], b[10], b[11]),
           Word4(b[12], b[13], b[14], b[15]), Word4(b[16], b[17], b[18], b[19]), Word4(b[20], b[21], b[22], b[23]),
           Word4(b[24], b[25], b[26], b[27]), Word4(b[28], b[29], b[30], b[31]))
  }

  // The struct at word n of the scratch area.
  function HeaderAt(m: seq<byte>, n: nat): Header
    requires SCRATCH + 4 * n + 32 <= |m|
  {
    HeaderOf(m[SCRATCH + 4 * n..SCRATCH + 4 * n + 32])
  }

  // The struct at word n of the image.
  function ImageHeader(disk: Disk, n: nat): Header {
    HeaderOf(seq<byte>(32, i requires i >= 0 => Image(disk, 4 * n + i)))
  }

  predicate Good(h: Header) {
    h.magic == MAGIC && (h.magic + h.flags + h.checksum) % TWO32 == 0
  }

  predicate Acceptable(h: Header) {
    h.flags / 0x1_0000 % 2 == 1 && h.loadAddr <= h.headerAddr && h.loadAddr <= h.loadEnd
  }

  // Memory once the first 8192 bytes of the image are in the scratch area.
  ghost function Scratched(disk: Disk, m: seq<byte>): seq<byte> {
    seq<byte>(|m|, a requires 0 <= a < |m| => ScratchedByte(disk, m, a))
  }

  function ScratchedByte(disk: Disk, m: seq<byte>, a: nat): byte
    requires a < |m|
  {
    if SCRATCH <= a < SCRATCH + HEAD_BYTES then Image(disk, a - SCRATCH) else m[a]
  }

  /** A header that lies wholly in the first 8192 bytes is the image's. */
  lemma HeaderInImage(disk: Disk, m: seq<byte>, n: nat)
    requires 4 * n + 32 <= HEAD_BYTES && SCRATCH + HEAD_BYTES <= |m|
    ensures HeaderAt(Scratched(disk, m), n) == ImageHeader(disk, n)
  {
    hide HeaderOf, Image;
    var a := SCRATCH + 4 * n;
    assert Scratched(disk, m)[a..a + 32] == seq<byte>(32, i requires i >= 0 => Image(disk, 4 * n + i));
  }

  lemma HeaderFields(mem: array<byte>, a: nat)
    requires a + 32 <= mem.Length
    ensures HeaderOf(mem[a..a + 32]) == Header(U32(mem, a), U32(mem, a + 4), U32(mem, a + 8), U32(mem, a + 12),
                                               U32(mem, a + 16), U32(mem, a + 20), U32(mem, a + 24), U32(mem, a + 28))
  {
    hide Word4;
  }

  // The scan: the first word of the scratch area that starts a good header, or 2048.
  method FindHeader(mem: array<byte>) returns (n: nat)
    requires SCRATCH + HEAD_BYTES + 32 <= mem.Length
    ensures n <= HEAD_BYTES / 4 && forall k :: 0 <= k < n ==> !Good(HeaderAt(mem[..], k))
    ensures n < HEAD_BYTES / 4 ==>
              var h := HeaderAt(mem[..], n); Good(h) && h.magic == 0x1BAD_B002 && (h.magic + h.flags + h.checksum) % TWO32 == 0
  {
    hide HeaderOf, U32;
    n := 0;
    while n < HEAD_BYTES / 4
      invariant 0 <= n <= HEAD_BYTES / 4
      invariant forall k :: 0 <= k < n ==> !Good(HeaderAt(mem[..], k))
    {
      var a := SCRATCH + 4 * n;
      HeaderFields(mem, a);
      assert mem[..][a..a + 32] == mem[a..a + 32];
      if U32(mem, a) == MAGIC && (U32(mem, a) + U32(mem, a + 4) + U32(mem, a + 8)) % TWO32 == 0 {
        return;
      }
      n := n + 1;
    }
  }

  // ---- loading ----------------------------------------------------------------------------

  // Image offset of the first byte to load, in 32-bit arithmetic.
  function LoadOffset(h: Header, n: nat): nat { (4 * n - (h.headerAddr - h.loadAddr)) % TWO32 }

  // Where the sectors of the segment go.
  ghost function LoadLo(h: Header, n: nat): int { SegLo(h.loadAddr, LoadOffset(h, n)) }

  ghost function LoadHi(h: Header, n: nat): int
    requires Acceptable(h)
  {
    SegHi(h.loadAddr, h.loadEnd - h.loadAddr, LoadOffset(h, n))
  }

  // The sectors of the segment fit in memory.
  ghost predicate SectorsFit(h: Header, n: nat, size: nat)
    requires Acceptable(h)
  {
    SegFits(h.loadAddr, h.loadEnd - h.loadAddr, LoadOffset(h, n), size)
  }

  // Neither the sectors read nor the bytes cleared touch the header in the scratch area.
  ghost predicate ClearOfHeader(h: Header, n: nat)
    requires Acceptable(h)
  {
    && (LoadHi(h, n) <= SCRATCH + 4 * n || SCRATCH + 4 * n + 32 <= LoadLo(h, n))
    && (h.bssEnd <= SCRATCH + 4 * n || SCRATCH + 4 * n + 32 <= h.loadEnd)
  }

  // What a load leaves in memory: the segment, placed so that the header, word n of the image,
  // comes to headerAddr, and zeros behind it. A segment that would begin before the image takes
  // its bytes from 2^32 further on.
  ghost predicate Loaded(m: seq<byte>, disk: Disk, h: Header, n: nat)
    requires Acceptable(h)
  {
    && h.loadEnd <= |m| && (h.loadEnd < h.bssEnd ==> h.bssEnd <= |m|)
    && (forall a {:trigger m[a]} :: h.loadAddr <= a < h.loadEnd ==>
          m[a] == if h.headerAddr - h.loadAddr <= 4 * n then Image(disk, 4 * n + a - h.headerAddr)
                  else Image(disk, TWO32 + 4 * n + a - h.headerAddr))
    && (forall a {:trigger m[a]} :: h.loadEnd <= a < h.bssEnd ==> m[a] == 0)
  }

  /** The header itself is loaded where it says it is. */
  lemma HeaderLoaded(m: seq<byte>, disk: Disk, h: Header, n: nat)
    requires Acceptable(h) && Loaded(m, disk, h, n)
    requires h.headerAddr - h.loadAddr <= 4 * n && h.headerAddr + 32 <= h.loadEnd
    ensures HeaderOf(m[h.headerAddr..h.headerAddr + 32]) == ImageHeader(disk, n)
  {
    hide HeaderOf, Image;
    var a := h.headerAddr;
    assert m[a..a + 32] == seq<byte>(32, i requires i >= 0 => Image(disk, 4 * n + i));
  }

  // Where the image offset of the segment comes from.
  lemma OffsetFromHeader(h: Header, n: nat)
    requires Acceptable(h) && 4 * n < TWO32
    ensures LoadOffset(h, n) - h.loadAddr == (if h.headerAddr - h.loadAddr <= 4 * n then 0 else TWO32) + 4 * n - h.headerAddr
  {
  }

  // Nothing outside the sectors and the bytes to clear has changed.
  ghost predicate OnlyLoaded(m: seq<byte>, was: seq<byte>, h: Header, n: nat)
    requires Acceptable(h)
  {
    && |m| == |was|
    && forall a {:trigger m[a]} :: 0 <= a < |m| && !(LoadLo(h, n) <= a < LoadHi(h, n)) && !(h.loadEnd <= a < h.bssEnd) ==>
         m[a] == was[a]
  }

  datatype Outcome = NoHeader | Refused | NoRoom | Entered(entry: nat)

  // What is to become of header h found at word n, in memory `was`.
  ghost predicate LoadResult(r: Outcome, m: seq<byte>, was: seq<byte>, disk: Disk, h: Header, n: nat)
    requires Acceptable(h)
  {
    if !SectorsFit(h, n, |was|) then r == NoRoom && m == was
    else if !ClearOfHeader(h, n) then r == NoRoom || r.Entered?
    else if h.loadEnd < h.bssEnd && |was| < h.bssEnd then r == NoRoom && OnlyLoaded(m, was, h, n)
    else r == Entered(h.entry) && Loaded(m, disk, h, n) && OnlyLoaded(m, was, h, n)
  }

  /** The loader finds the first good header of the first 8192 bytes, refuses it exactly when it
      is not acceptable, and otherwise loads and enters exactly when memory has room: the segment
      then holds its image bytes, in spite of whole-sector reads, the rest up to bssEnd is zero,
      nothing else has changed and the entry is the header's, unless a write covers the header. */
  method Bootmain(mem: array<byte>, disk: Disk) returns (r: Outcome, ghost n: nat)
    requires SCRATCH + HEAD_BYTES + 32 <= mem.Length
    modifies mem
    ensures n <= HEAD_BYTES / 4 && forall k :: 0 <= k < n ==> !Good(HeaderAt(Scratched(disk, old(mem[..])), k))
    ensures r == NoHeader <==> n == HEAD_BYTES / 4
    ensures n == HEAD_BYTES / 4 ==> mem[..] == Scratched(disk, old(mem[..]))
    ensures n < HEAD_BYTES / 4 ==>
              var was := Scratched(disk, old(mem[..]));
              var h := HeaderAt(was, n);
              && Good(h)
              && (r == Refused <==> h.flags / 0x1_0000 % 2 == 0 || h.loadAddr > h.headerAddr || h.loadEnd < h.loadAddr)
              && (if Acceptable(h) then LoadResult(r, mem[..], was, disk, h, n) else mem[..] == was)
  {
    hide Image, HeaderOf, U32, LoadResult, Good;
    Readseg(mem, disk, SCRATCH, HEAD_BYTES, 0);
    ghost var was := mem[..];
    assert was == Scratched(disk, old(mem[..]));
    var m := FindHeader(mem);
    n := m;
    assert mem[..] == was;
    forall k | 0 <= k < n ensures !Good(HeaderAt(was, k)) {
      assert !Good(HeaderAt(mem[..], k));
    }
    if m == HEAD_BYTES / 4 {
      return NoHeader, n;
    }
    var hdr := SCRATCH + 4 * m;
    HeaderFields(mem, hdr);
    assert was[hdr..hdr + 32] == mem[hdr..hdr + 32];
    if U32(mem, hdr + 4) / 0x1_0000 % 2 == 0 || U32(mem, hdr + 16) > U32(mem, hdr + 12) || U32(mem, hdr + 20) < U32(mem, hdr + 16) {
      return Refused, n;
    }
    r := Load(mem, disk, hdr, m);
    LoadOutcome(r, mem[..], was, disk, HeaderAt(was, n), n);
  }

  lemma LoadOutcome(r: Outcome, m: seq<byte>, was: seq<byte>, disk: Disk, h: Header, n: nat)
    requires Acceptable(h) && LoadResult(r, m, was, disk, h, n)
    ensures r == NoRoom || r.Entered?
  {
  }

  // The rest of bootmain, behind an acceptable header at address hdr. The fields used after a
  // write are read again, as the code does.
  method Load(mem: array<byte>, disk: Disk, hdr: nat, n: nat) returns (r: Outcome)
    requires hdr == SCRATCH + 4 * n && 4 * n < TWO32 && hdr + 32 <= mem.Length && Acceptable(HeaderOf(mem[hdr..hdr + 32]))
    modifies mem
    ensures LoadResult(r, mem[..], old(mem[..]), disk, HeaderOf(old(mem[hdr..hdr + 32])), n)
  {
    hide U32, Image, HeaderOf, SegHi, SegLo, Loaded, OnlyLoaded, ClearOfHeader;
    ghost var was := mem[..];
    ghost var h := HeaderOf(mem[hdr..hdr + 32]);
    assert was[hdr..hdr + 32] == mem[hdr..hdr + 32];
    HeaderFields(mem, hdr);
    var la, count := U32(mem, hdr + 16), U32(mem, hdr + 20) - U32(mem, hdr + 16);
    var off := (4 * n - (U32(mem, hdr + 12) - U32(mem, hdr + 16))) % TWO32;
    if la < off % SECT || SegHi(la, count, off) > mem.Length {
      SegLoIs(la, off);
      return NoRoom;
    }
    SegLoIs(la, off);
    Readseg(mem, disk, la, count, off);
    ghost var m1 := mem[..];
    HeaderFields(mem, hdr);
    assert m1[hdr..hdr + 32] == mem[hdr..hdr + 32];
    if ClearOfHeader(h, n) { HeaderKept(m1, was, disk, h, n); }
    var bss, end := U32(mem, hdr + 24), U32(mem, hdr + 20);
    if bss > end {
      if bss > mem.Length {
        if ClearOfHeader(h, n) { SectorsOnly(m1, was, disk, h, n); }
        return NoRoom;
      }
      Stosb(mem, end, 0, bss - end);
      HeaderFields(mem, hdr);
      assert mem[..][hdr..hdr + 32] == mem[hdr..hdr + 32];
      if ClearOfHeader(h, n) { Cleared(mem[..], m1, was, disk, h, n); }
    } else if ClearOfHeader(h, n) {
      Cleared(mem[..], m1, was, disk, h, n);
    }
    r := Entered(U32(mem, hdr + 28));
  }

  lemma SegLoIs(pa: nat, offset: nat)
    ensures SegLo(pa, offset) == pa - offset % SECT
  {
  }

  // Memory m1 is `was` with the sectors of the segment read into it.
  ghost predicate SectorsRead(m1: seq<byte>, was: seq<byte>, disk: Disk, h: Header, n: nat)
    requires Acceptable(h)
  {
    && |m1| == |was| && SectorsFit(h, n, |was|)
    && (forall a {:trigger m1[a]} :: LoadLo(h, n) <= a < LoadHi(h, n) ==> m1[a] == Image(disk, LoadOffset(h, n) + a - h.loadAddr))
    && (forall a {:trigger m1[a]} :: 0 <= a < |m1| && !(LoadLo(h, n) <= a < LoadHi(h, n)) ==> m1[a] == was[a])
  }

  lemma HeaderKept(m1: seq<byte>, was: seq<byte>, disk: Disk, h: Header, n: nat)
    requires Acceptable(h) && SectorsRead(m1, was, disk, h, n) && ClearOfHeader(h, n)
    requires SCRATCH + 4 * n + 32 <= |was|
    ensures m1[SCRATCH + 4 * n..SCRATCH + 4 * n + 32] == was[SCRATCH + 4 * n..SCRATCH + 4 * n + 32]
  {
    hide Image, SegLo, SegHi;
  }

  lemma SectorsOnly(m1: seq<byte>, was: seq<byte>, disk: Disk, h: Header, n: nat)
    requires Acceptable(h) && SectorsRead(m1, was, disk, h, n)
    ensures OnlyLoaded(m1, was, h, n)
  {
    hide Image, SegLo, SegHi;
  }

  // Memory m2 is m1 with the bytes from loadEnd to bssEnd cleared.
  lemma Cleared(m2: seq<byte>, m1: seq<byte>, was: seq<byte>, disk: Disk, h: Header, n: nat)
    requires Acceptable(h) && SectorsRead(m1, was, disk, h, n) && ClearOfHeader(h, n)
    requires 4 * n < TWO32 && SCRATCH + 4 * n + 32 <= |was| && |m2| == |m1| && (h.loadEnd < h.bssEnd ==> h.bssEnd <= |m1|)
    requires forall a {:trigger m2[a]} :: 0 <= a < |m2| ==> m2[a] == if h.loadEnd <= a < h.bssEnd then 0 else m1[a]
    ensures Loaded(m2, disk, h, n) && OnlyLoaded(m2, was, h, n)
    ensures m2[SCRATCH + 4 * n..SCRATCH + 4 * n + 32] == was[SCRATCH + 4 * n..SCRATCH + 4 * n + 32]
  {
    Covers(h.loadAddr, h.loadEnd - h.loadAddr, LoadOffset(h, n));
    OffsetFromHeader(h, n);
    hide Image, SegLo, SegHi, LoadOffset;
    HeaderKept(m1, was, disk, h, n);
  }

  // The sectors read cover the segment.
  lemma Covers(pa: nat, count: nat, offset: nat)
    ensures SegLo(pa, offset) <= pa && pa + count <= SegHi(pa, count, offset)
  {
  }
}
