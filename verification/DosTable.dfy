/** The on-disk partition record (libparted/labels/dos.c:337-359): four 16-byte
    entries at byte 446 of a sector and a two-byte signature at byte 510, the legacy
    layout of section 5.2.1 of the UEFI Specification. */
module DosTable {
  import opened CInt

  datatype RawChs = RawChs(head: byte, sector: byte, cylinder: byte)

  type uint32 = x: int | 0 <= x < 0x1_0000_0000

  /** `DosRawPartition` */
  datatype RawPart = RawPart(bootInd: byte, chsStart: RawChs, kind: byte, chsEnd: RawChs, start: uint32, length: uint32)

  const ZERO_CHS := RawChs(0, 0, 0)
  const NO_ENTRY := RawPart(0, ZERO_CHS, 0, ZERO_CHS, 0, 0)

  const MSDOS_MAGIC := 0xAA55
  const PARTITION_MAGIC_MAGIC := 0xf6f6

  /** A sector is at least 512 bytes long. */
  type Sector = s: seq<byte> | |s| >= 512 witness seq(512, _ => 0)

  // ---- little-endian words --------------------------------------------------------------

  function PutLe32(x: uint32): (b: seq<byte>)
    ensures |b| == 4
  {
    [x % 256, (x / 256) % 256, (x / 0x1_0000) % 256, x / 0x100_0000]
  }

  function GetLe32(b: seq<byte>): uint32
    requires |b| == 4
  {
    var b0: int, b1: int, b2: int, b3: int := b[0], b[1], b[2], b[3];
    b0 + 256 * b1 + 0x1_0000 * b2 + 0x100_0000 * b3
  }

  lemma Le32RoundTrip(x: uint32)
    ensures GetLe32(PutLe32(x)) == x
  {
    var a := x / 256;
    var b := a / 256;
    assert x / 0x1_0000 == b;
    assert x / 0x100_0000 == b / 256;
  }

  // ---- entries ----------------------------------------------------------------------------

  function PutEntry(r: RawPart): (b: seq<byte>)
    ensures |b| == 16
  {
    [r.bootInd, r.chsStart.head, r.chsStart.sector, r.chsStart.cylinder,
     r.kind, r.chsEnd.head, r.chsEnd.sector, r.chsEnd.cylinder]
    + PutLe32(r.start) + PutLe32(r.length)
  }

  function GetEntry(b: seq<byte>): RawPart
    requires |b| == 16
  {
    RawPart(b[0], RawChs(b[1], b[2], b[3]), b[4], RawChs(b[5], b[6], b[7]), GetLe32(b[8..12]), GetLe32(b[12..16]))
  }

  lemma EntryRoundTrip(r: RawPart)
    ensures GetEntry(PutEntry(r)) == r
  {
    var b := PutEntry(r);
    assert b[8..12] == PutLe32(r.start);
    assert b[12..16] == PutLe32(r.length);
    Le32RoundTrip(r.start);
    Le32RoundTrip(r.length);
  }

  // ---- tables ------------------------------------------------------------------------------

  function EntryOf(s: Sector, i: nat): RawPart
    requires i < 4
  {
    GetEntry(s[446 + 16 * i .. 462 + 16 * i])
  }

  function Magic(s: Sector): int {
    var low: int, high: int := s[510], s[511];
    low + 256 * high
  }

  /** Fill the four entries and the signature, keep the other bytes. */
  function PutTable(s: Sector, e: seq<RawPart>): (r: Sector)
    requires |e| == 4
    ensures |r| == |s|
  {
    s[..446] + PutEntry(e[0]) + PutEntry(e[1]) + PutEntry(e[2]) + PutEntry(e[3]) + [0x55, 0xAA] + s[512..]
  }

  /** What is put into a sector is what is read from it. */
  lemma TableRoundTrip(s: Sector, e: seq<RawPart>, i: nat)
    requires |e| == 4 && i < 4
    ensures EntryOf(PutTable(s, e), i) == e[i]
    ensures Magic(PutTable(s, e)) == MSDOS_MAGIC
  {
    hide PutEntry, GetEntry;
    var r := PutTable(s, e);
    assert r[446 + 16 * i .. 462 + 16 * i] == PutEntry(e[i]);
    EntryRoundTrip(e[i]);
  }

  /** `raw_part_is_extended` */
  predicate IsExtendedKind(kind: byte) {
    kind == 0x05 || kind == 0x0f || kind == 0x85
  }
}
