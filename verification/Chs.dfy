/** Cylinder/head/sector addresses of table entries (libparted/labels/dos.c:632-698)
    and the recovery of a disk's BIOS geometry from the two addresses of an entry
    (libparted/labels/dos.c:874-1017). */
module Chs {
  import opened CInt
  import opened Geometry
  import opened PartList
  import opened Disk
  import opened DosTable
  import opened EbrWrite

  const MAX_CHS_CYLINDER := 1021

  /** The largest number that any head count may multiply. */
  const DONT_OVERFLOW := 0x80_0000_0000_0000 - 1

  function CylinderOf(chs: RawChs): int {
    chs.cylinder + chs.sector / 64 * 256
  }

  function HeadOf(chs: RawChs): int {
    chs.head
  }

  /** Counts from 0. */
  function SectorOf(chs: RawChs): int {
    chs.sector % 64 - 1
  }

  /** `chs_to_sector` */
  function ChsToSector(bios: Bios, chs: RawChs): int {
    var c, h, s := CylinderOf(chs), HeadOf(chs), SectorOf(chs);
    if c > MAX_CHS_CYLINDER || s < 0 then 0 else (c * bios.heads + h) * bios.sectors + s
  }

  function ToByte(x: int): byte {
    x % 256
  }

  /** `sector_to_chs` */
  function SectorToChs(bios: Bios, sector: int): RawChs
    requires bios.Valid() && sector >= 0
  {
    var c := CylinderAt(bios, sector);
    if c > MAX_CHS_CYLINDER then Pack(1023, bios.heads - 1, bios.sectors - 1)
    else Pack(c, (sector / bios.sectors) % bios.heads, sector % bios.sectors)
  }

  function CylinderAt(bios: Bios, sector: int): int
    requires bios.Valid()
  {
    MulPositive(bios.heads, bios.sectors);
    sector / (bios.heads * bios.sectors)
  }

  function Pack(c: int, h: int, s: int): RawChs {
    RawChs(ToByte(h), ToByte(s + 1 + c / 256 * 64), ToByte(c % 256))
  }

  lemma MulPositive(a: int, b: int)
    requires a > 0 && b > 0
    ensures a * b > 0
  {
  }

  /** A geometry that the one-byte head and the six-bit sector can express. */
  predicate Expressible(bios: Bios) {
    1 <= bios.heads <= 255 && 1 <= bios.sectors <= 63
  }

  lemma PackUnpack(c: int, h: int, s: int)
    requires 0 <= c <= 1023 && 0 <= h <= 255 && 0 <= s <= 62
    ensures var p := Pack(c, h, s); CylinderOf(p) == c && HeadOf(p) == h && SectorOf(p) == s
  {
    hide ToByte;
    Bytes(c);
    SixBits(c / 256, s + 1);
    ByteIs(h);
    ByteIs(s + 1 + c / 256 * 64);
    ByteIs(c % 256);
  }

  lemma ByteIs(x: int)
    requires 0 <= x < 256
    ensures ToByte(x) == x
  {
  }

  /** The two high bits of a ten-bit cylinder, and its low byte. */
  lemma Bytes(c: int)
    requires 0 <= c <= 1023
    ensures 0 <= c / 256 <= 3 && 0 <= c % 256 < 256 && c == c / 256 * 256 + c % 256
  {
  }

  /** Two bits above six. */
  lemma SixBits(q: int, s: int)
    requires 0 <= q <= 3 && 0 <= s < 64
    ensures 0 <= s + q * 64 < 256 && (s + q * 64) / 64 == q && (s + q * 64) % 64 == s
  {
  }

  /** A sector is determined by its cylinder, head and sector. */
  lemma Decompose(bios: Bios, sector: int)
    requires bios.Valid() && sector >= 0
    ensures var c, h, s := CylinderAt(bios, sector), (sector / bios.sectors) % bios.heads, sector % bios.sectors;
            && c >= 0 && 0 <= h < bios.heads && 0 <= s < bios.sectors
            && sector == (c * bios.heads + h) * bios.sectors + s
  {
    var track := sector / bios.sectors;
    DivMod(sector, bios.sectors);
    DivMod(track, bios.heads);
    CylinderIs(bios, track / bios.heads, track % bios.heads, sector % bios.sectors, sector);
  }

  lemma DivMod(n: int, d: int)
    requires n >= 0 && d > 0
    ensures n == n / d * d + n % d && n / d >= 0 && 0 <= n % d < d
  {
  }

  lemma CylinderIs(bios: Bios, c: int, h: int, s: int, sector: int)
    requires bios.Valid() && 0 <= h < bios.heads && 0 <= s < bios.sectors && At(bios, c, h, s, sector)
    ensures CylinderAt(bios, sector) == c
  {
    MulPositive(bios.heads, bios.sectors);
    InCylinder(bios, h, s);
    Regroup(c, bios.heads, h, bios.sectors);
    DivModUnique(sector, bios.heads * bios.sectors, c, h * bios.sectors + s);
  }

  lemma NonNegQuot(n: int, d: int)
    requires n >= 0 && d > 0
    ensures n / d >= 0
  {
  }

  lemma Regroup(c: int, heads: int, h: int, sectors: int)
    ensures (c * heads + h) * sectors == c * (heads * sectors) + h * sectors
  {
  }

  lemma InCylinder(bios: Bios, h: int, s: int)
    requires 0 <= h < bios.heads && 0 <= s < bios.sectors
    ensures 0 <= h * bios.sectors + s < bios.heads * bios.sectors
  {
    MulNonNeg(h, bios.sectors);
    MulNonNeg(bios.heads - 1 - h, bios.sectors);
    assert (bios.heads - 1 - h) * bios.sectors == bios.heads * bios.sectors - bios.sectors - h * bios.sectors;
  }

  /** What the packed address says about a sector on one of the first 1022 cylinders. */
  lemma PackedParts(bios: Bios, sector: int)
    requires Expressible(bios) && sector >= 0 && CylinderAt(bios, sector) <= MAX_CHS_CYLINDER
    ensures var p := SectorToChs(bios, sector);
            && CylinderOf(p) == CylinderAt(bios, sector) && 0 <= HeadOf(p) < bios.heads && 0 <= SectorOf(p) < bios.sectors
            && At(bios, CylinderOf(p), HeadOf(p), SectorOf(p), sector)
  {
    hide CylinderAt, Pack;
    Decompose(bios, sector);
    PackUnpack(CylinderAt(bios, sector), (sector / bios.sectors) % bios.heads, sector % bios.sectors);
  }

  /** Unpacking inverts packing on the first 1022 cylinders and gives 0 beyond. */
  lemma ChsRoundTrip(bios: Bios, sector: int)
    requires Expressible(bios) && sector >= 0
    ensures ChsToSector(bios, SectorToChs(bios, sector)) ==
            if CylinderAt(bios, sector) <= MAX_CHS_CYLINDER then sector else 0
  {
    hide CylinderAt, Pack;
    if CylinderAt(bios, sector) <= MAX_CHS_CYLINDER {
      PackedParts(bios, sector);
    } else {
      PackUnpack(1023, bios.heads - 1, bios.sectors - 1);
    }
  }

  // ---- recovering the geometry ----------------------------------------------------------------

  datatype ChsGeometry = ChsGeometry(cylinders: int, heads: int, sectors: int)

  /** Under `bios` the address names the sector. */
  predicate At(bios: Bios, c: int, h: int, s: int, sector: int) {
    (c * bios.heads + h) * bios.sectors + s == sector
  }

  /** `probe_partition_for_geom` on the old table entry and region of a partition of a
      device of `len` sectors. */
  function ProbeForGeom(first: RawChs, last: RawChs, geom: Geom, len: int): Option<ChsGeometry>
    requires len >= 0
  {
    var c, h, s, a := CylinderOf(first), HeadOf(first), SectorOf(first), geom.start;
    var C, H, S, A := CylinderOf(last), HeadOf(last), SectorOf(last), geom.end;
    if h < 0 || H < 0 || h > 254 || H > 254 then None
    else if c > C then None
    else if A > (C + 1) * 255 * 63 then None
    else if C > MAX_CHS_CYLINDER || C == 0 then None
    else if a - s > DONT_OVERFLOW || A - S > DONT_OVERFLOW then None
    else
      var sizes := SolveSizes(c, h, a - s, C, H, A - S);
      if sizes.None? then None
      else
        var (cylSize, headSize) := sizes.value;
        var heads := Quot(cylSize, headSize);
        if heads <= 0 || heads >= 256 then None
        else
          var bios := Bios(heads, headSize);
          var C' := if At(bios, C + 1, H, S, A) then C + 1 else C;
          if !At(bios, c, h, s, a) || !At(bios, C', H, S, A) then None
          else Some(ChsGeometry(len / cylSize, heads, headSize))
  }

  /** The cylinder and head sizes that solve both linear equations. */
  function SolveSizes(c: int, h: int, a: int, C: int, H: int, A: int): (r: Option<(int, int)>)
    requires h >= 0 && H >= 0
    ensures r.Some? ==> 0 < r.value.0 <= 255 * 63 && 0 < r.value.1 <= 63
  {
    var denum := c * H - C * h;
    if denum == 0 then None
    else
      var cylSize := Quot(a * H - A * h, denum);
      if cylSize * denum != a * H - A * h || cylSize <= 0 || cylSize > 255 * 63 then None
      else
        var headSize := if h > 0 then Quot(a - c * cylSize, h) else HeadSizeAt(A - C * cylSize, H, c, C, h);
        if headSize <= 0 || headSize > 63 then None else Some((cylSize, headSize))
  }

  /** `h` is 0 here, so the other head is not: the assertion in that branch never fails. */
  function HeadSizeAt(A: int, H: int, c: int, C: int, h: int): int
    requires h == 0 && H >= 0 && c * H - C * h != 0
  {
    Quot(A, H)
  }

  lemma QuotExact(k: int, d: int)
    requires d != 0
    ensures Quot(k * d, d) == k
  {
    if d > 0 {
      if k >= 0 { MulNonNeg(k, d); MulMod(k, d); }
      else { MulNonNeg(-k, d); MulMod(-k, d); assert -(k * d) == (-k) * d; }
    } else {
      QuotNegative(k, d);
    }
  }

  lemma QuotNegative(k: int, d: int)
    requires d < 0
    ensures Quot(k * d, d) == k
  {
    var e := -d;
    if k <= 0 {
      MulNonNeg(-k, e);
      assert k * d == (-k) * e;
      MulMod(-k, e);
      NegDivisor((-k) * e, e, -k);
    } else {
      MulNonNeg(k - 1, e);
      assert k * d == -(k * e);
      assert k * e == (k - 1) * e + e;
      MulMod(k, e);
      NegDivisor(k * e, e, k);
    }
  }

  lemma NegDivisor(n: int, e: int, q: int)
    requires e > 0 && n == q * e
    ensures n / (-e) == -q
  {
    var p, r := n / (-e), n % (-e);
    assert n == p * (-e) + r && 0 <= r < e;
    assert n == (-p) * e + r;
    DivModUnique(n, e, -p, r);
    DivModUnique(n, e, q, 0);
  }

  /** Elimination: the determinant times the cylinder size. */
  lemma Eliminate(c: int, h: int, C: int, H: int, x: int, y: int)
    ensures (c * x + h * y) * H - (C * x + H * y) * h == x * (c * H - C * h)
  {
    assert (c * x + h * y) * H == x * (c * H) + (h * y) * H;
    assert (C * x + H * y) * h == x * (C * h) + (H * y) * h;
    assert (h * y) * H == (H * y) * h;
    assert x * (c * H - C * h) == x * (c * H) - x * (C * h);
  }

  /** The solution found is the one that is there. */
  lemma SolvedSizes(c: int, h: int, C: int, H: int, x: int, y: int)
    requires h >= 0 && H >= 0 && c * H - C * h != 0 && 0 < x <= 255 * 63 && 0 < y <= 63
    ensures SolveSizes(c, h, c * x + h * y, C, H, C * x + H * y) == Some((x, y))
  {
    hide Quot;
    var a, A := c * x + h * y, C * x + H * y;
    Eliminate(c, h, C, H, x, y);
    QuotExact(x, c * H - C * h);
    assert Quot(a * H - A * h, c * H - C * h) == x;
    if h > 0 {
      assert a - c * x == y * h;
      QuotExact(y, h);
    } else {
      assert H != 0;
      assert A - C * x == y * H;
      QuotExact(y, H);
    }
  }

  /** The end of a partition cannot be further than its last address allows. */
  lemma Feasible(bios: Bios, C: int, H: int, S: int, A: int)
    requires Expressible(bios) && 0 <= C <= MAX_CHS_CYLINDER && 0 <= H <= 254 && S <= 62 && At(bios, C, H, S, A)
    ensures A <= (C + 1) * 255 * 63 && A - S <= DONT_OVERFLOW
  {
    var t := C * bios.heads + H;
    MulNonNeg(C, 255 - bios.heads);
    assert C * (255 - bios.heads) == C * 255 - C * bios.heads;
    assert t <= C * 255 + 254;
    MulNonNeg(C, bios.heads);
    MulNonNeg(t, 63 - bios.sectors);
    assert t * (63 - bios.sectors) == t * 63 - t * bios.sectors;
  }

  /** No other end cylinder fits. */
  lemma OneCylinderOff(bios: Bios, C: int, H: int, S: int, A: int)
    requires bios.Valid() && At(bios, C, H, S, A)
    ensures !At(bios, C + 1, H, S, A)
  {
    MulPositive(bios.heads, bios.sectors);
    Regroup(C, bios.heads, H, bios.sectors);
    Regroup(C + 1, bios.heads, H, bios.sectors);
    assert (C + 1) * (bios.heads * bios.sectors) == C * (bios.heads * bios.sectors) + bios.heads * bios.sectors;
  }

  lemma CylinderBound(bios: Bios)
    requires Expressible(bios)
    ensures 0 < bios.heads * bios.sectors <= 255 * 63
    ensures Quot(bios.heads * bios.sectors, bios.sectors) == bios.heads
  {
    MulPositive(bios.heads, bios.sectors);
    MulNonNeg(bios.heads, 63 - bios.sectors);
    assert bios.heads * (63 - bios.sectors) == bios.heads * 63 - bios.heads * bios.sectors;
    QuotExact(bios.heads, bios.sectors);
  }

  /** When both addresses of an entry agree with a geometry, and determine it, the
      probe finds that geometry. */
  lemma ProbeFinds(bios: Bios, first: RawChs, last: RawChs, geom: Geom, len: int)
    requires Expressible(bios) && len >= 0
    requires At(bios, CylinderOf(first), HeadOf(first), SectorOf(first), geom.start)
    requires At(bios, CylinderOf(last), HeadOf(last), SectorOf(last), geom.end)
    requires HeadOf(first) <= 254 && HeadOf(last) <= 254
    requires CylinderOf(first) <= CylinderOf(last) <= MAX_CHS_CYLINDER && CylinderOf(last) > 0
    requires CylinderOf(first) * HeadOf(last) != CylinderOf(last) * HeadOf(first)
    ensures bios.heads * bios.sectors > 0
    ensures ProbeForGeom(first, last, geom, len) == Some(ChsGeometry(len / (bios.heads * bios.sectors), bios.heads, bios.sectors))
  {
    hide CylinderOf, HeadOf, SectorOf, Quot, SolveSizes, At, ProbeForGeom;
    ChsRanges(first);
    ChsRanges(last);
    var c, h, s, a := CylinderOf(first), HeadOf(first), SectorOf(first), geom.start;
    var C, H, S, A := CylinderOf(last), HeadOf(last), SectorOf(last), geom.end;
    var x, y := bios.heads * bios.sectors, bios.sectors;
    CylinderBound(bios);
    AtIs(bios, c, h, s, a);
    AtIs(bios, C, H, S, A);
    SolvedSizes(c, h, C, H, x, y);
    Feasible(bios, c, h, s, a);
    Feasible(bios, C, H, S, A);
    OneCylinderOff(bios, C, H, S, A);
    ProbeIs(bios, first, last, geom, len);
  }

  lemma AtIs(bios: Bios, c: int, h: int, s: int, a: int)
    requires At(bios, c, h, s, a)
    ensures a - s == c * (bios.heads * bios.sectors) + h * bios.sectors
  {
    Regroup(c, bios.heads, h, bios.sectors);
  }

  /** What the probe answers once its two equations are solved. */
  lemma ProbeIs(bios: Bios, first: RawChs, last: RawChs, geom: Geom, len: int)
    requires len >= 0 && 0 < bios.heads < 256 && bios.heads * bios.sectors > 0
    requires 0 <= HeadOf(first) <= 254 && 0 <= HeadOf(last) <= 254
    requires CylinderOf(first) <= CylinderOf(last) <= MAX_CHS_CYLINDER && CylinderOf(last) != 0
    requires geom.end <= (CylinderOf(last) + 1) * 255 * 63
    requires geom.start - SectorOf(first) <= DONT_OVERFLOW && geom.end - SectorOf(last) <= DONT_OVERFLOW
    requires SolveSizes(CylinderOf(first), HeadOf(first), geom.start - SectorOf(first),
                        CylinderOf(last), HeadOf(last), geom.end - SectorOf(last))
             == Some((bios.heads * bios.sectors, bios.sectors))
    requires Quot(bios.heads * bios.sectors, bios.sectors) == bios.heads
    requires At(bios, CylinderOf(first), HeadOf(first), SectorOf(first), geom.start)
    requires At(bios, CylinderOf(last), HeadOf(last), SectorOf(last), geom.end)
    requires !At(bios, CylinderOf(last) + 1, HeadOf(last), SectorOf(last), geom.end)
    ensures ProbeForGeom(first, last, geom, len) == Some(ChsGeometry(len / (bios.heads * bios.sectors), bios.heads, bios.sectors))
  {
    hide CylinderOf, HeadOf, SectorOf, Quot, SolveSizes, At;
  }

  lemma ChsRanges(chs: RawChs)
    ensures 0 <= CylinderOf(chs) <= 1023 && 0 <= HeadOf(chs) <= 255 && -1 <= SectorOf(chs) <= 62
  {
  }

  /** Whatever the probe answers agrees with both addresses, the last one possibly
      being one cylinder short. */
  lemma ProbeAgrees(first: RawChs, last: RawChs, geom: Geom, len: int)
    requires len >= 0 && ProbeForGeom(first, last, geom, len).Some?
    ensures var r := ProbeForGeom(first, last, geom, len).value;
            var bios := Bios(r.heads, r.sectors);
            && Expressible(bios)
            && At(bios, CylinderOf(first), HeadOf(first), SectorOf(first), geom.start)
            && (At(bios, CylinderOf(last), HeadOf(last), SectorOf(last), geom.end)
                || At(bios, CylinderOf(last) + 1, HeadOf(last), SectorOf(last), geom.end))
  {
    hide CylinderOf, HeadOf, SectorOf, Quot, SolveSizes;
  }

  /** Two geometries that agree with the same entry are the same. */
  lemma GeometryUnique(g: Bios, g': Bios, first: RawChs, last: RawChs, geom: Geom)
    requires Expressible(g) && Expressible(g')
    requires HeadOf(first) <= 254 && HeadOf(last) <= 254
    requires CylinderOf(first) <= CylinderOf(last) <= MAX_CHS_CYLINDER && CylinderOf(last) > 0
    requires CylinderOf(first) * HeadOf(last) != CylinderOf(last) * HeadOf(first)
    requires At(g, CylinderOf(first), HeadOf(first), SectorOf(first), geom.start)
    requires At(g, CylinderOf(last), HeadOf(last), SectorOf(last), geom.end)
    requires At(g', CylinderOf(first), HeadOf(first), SectorOf(first), geom.start)
    requires At(g', CylinderOf(last), HeadOf(last), SectorOf(last), geom.end)
    ensures g == g'
  {
    hide CylinderOf, HeadOf, SectorOf, ProbeForGeom;
    ProbeFinds(g, first, last, geom, 0);
    ProbeFinds(g', first, last, geom, 0);
  }

  lemma CylinderMono(bios: Bios, a: int, b: int)
    requires bios.Valid() && 0 <= a <= b
    ensures 0 <= CylinderAt(bios, a) <= CylinderAt(bios, b)
  {
    MulPositive(bios.heads, bios.sectors);
    var d := bios.heads * bios.sectors;
    NonNegQuot(a, d);
    if a / d > b / d { MulAtLeast(a / d - b / d, d); }
  }

  /** The CHS bytes that `fill_raw_part` puts into an entry under a geometry. */
  function PackBoth(bios: Bios): ChsOf
    requires bios.Valid()
  {
    (g: Geom) => (SectorToChs(bios, Max(g.start, 0)), SectorToChs(bios, Max(g.end, 0)))
  }

  /** An entry that was filled under a geometry gives that geometry back, as long as
      its addresses are on the first 1022 cylinders and determine one. */
  lemma EntryRecovers(bios: Bios, p: Part, offset: int, len: int)
    requires Expressible(bios) && p.geom.Valid() && 0 <= p.geom.start && len >= 0
    requires 0 < CylinderAt(bios, p.geom.end) <= MAX_CHS_CYLINDER
    requires var raw := FillRaw(p, offset, PackBoth(bios));
             CylinderOf(raw.chsStart) * HeadOf(raw.chsEnd) != CylinderOf(raw.chsEnd) * HeadOf(raw.chsStart)
    ensures var raw := FillRaw(p, offset, PackBoth(bios));
            && bios.heads * bios.sectors > 0
            && ProbeForGeom(raw.chsStart, raw.chsEnd, p.geom, len)
               == Some(ChsGeometry(len / (bios.heads * bios.sectors), bios.heads, bios.sectors))
  {
    hide CylinderOf, HeadOf, SectorOf, CylinderAt, SectorToChs, ProbeForGeom;
    CylinderMono(bios, p.geom.start, p.geom.end);
    PackedParts(bios, p.geom.start);
    PackedParts(bios, p.geom.end);
    var raw := FillRaw(p, offset, PackBoth(bios));
    ProbeFinds(bios, raw.chsStart, raw.chsEnd, p.geom, len);
  }
}
