/** Finding aligned sectors inside a region (libparted/cs/natmath.c:340-455).
    As in the library, -1 stands for "no such sector"; regions start at 0 or
    later, so it is never a sector. */
module Placement {
  import opened CInt
  import opened Geometry
  import opened Alignment

  const NONE := -1

  /** `_closest_inside_geometry` */
  function ClosestInside(a: Align, geom: Geom, sector: int): int
    requires a.Valid()
  {
    if a.grain == 0 then
      if geom.Contains(sector) && IsAligned(a, sector) then sector else NONE
    else
      var s1 := if sector < geom.start then sector + RoundUpTo(geom.start - sector, a.grain) else sector;
      var s2 := if s1 > geom.end then s1 - RoundUpTo(s1 - geom.end, a.grain) else s1;
      if geom.Contains(s2) then s2 else NONE
  }

  /** The first step of `ped_alignment_align_up`, before the region is applied. */
  function UpFrom(a: Align, sector: int): int
    requires a.Valid()
  {
    if a.grain == 0 then a.offset else RoundUpTo(sector - a.offset, a.grain) + a.offset
  }

  /** The first step of `ped_alignment_align_down`. */
  function DownFrom(a: Align, sector: int): int
    requires a.Valid()
  {
    if a.grain == 0 then a.offset else RoundDownTo(sector - a.offset, a.grain) + a.offset
  }

  /** `ped_alignment_align_up` */
  function AlignUp(a: Align, geom: Option<Geom>, sector: int): int
    requires a.Valid()
  {
    if geom.Some? then ClosestInside(a, geom.value, UpFrom(a, sector)) else UpFrom(a, sector)
  }

  /** `ped_alignment_align_down` */
  function AlignDown(a: Align, geom: Option<Geom>, sector: int): int
    requires a.Valid()
  {
    if geom.Some? then ClosestInside(a, geom.value, DownFrom(a, sector)) else DownFrom(a, sector)
  }

  /** `closest` */
  function Closest(sector: int, a: int, b: int): int {
    if a == NONE then b
    else if b == NONE then a
    else if Abs(sector - a) < Abs(sector - b) then a
    else b
  }

  /** `ped_alignment_align_nearest` */
  function AlignNearest(a: Align, geom: Geom, sector: int): int
    requires a.Valid()
  {
    Closest(sector, AlignUp(a, Some(geom), sector), AlignDown(a, Some(geom), sector))
  }

  // ---- what these compute -------------------------------------------------

  predicate Fits(a: Align, geom: Geom, sector: int)
    requires a.Valid()
  {
    IsAligned(a, sector) && geom.Contains(sector)
  }

  /** `r` is the fitting sector nearest to `sector`, or -1 when nothing fits. */
  ghost predicate IsNearest(a: Align, geom: Geom, sector: int, r: int)
    requires a.Valid()
  {
    if r == NONE then forall t :: !Fits(a, geom, t)
    else Fits(a, geom, r) && forall t :: Fits(a, geom, t) ==> Abs(sector - r) <= Abs(sector - t)
  }

  ghost predicate IsFirst(a: Align, geom: Geom, r: int)
    requires a.Valid()
  {
    if r == NONE then forall t :: !Fits(a, geom, t)
    else Fits(a, geom, r) && forall t :: Fits(a, geom, t) ==> r <= t
  }

  ghost predicate IsLast(a: Align, geom: Geom, r: int)
    requires a.Valid()
  {
    if r == NONE then forall t :: !Fits(a, geom, t)
    else Fits(a, geom, r) && forall t :: Fits(a, geom, t) ==> t <= r
  }

  /** Aligned sectors are a whole number of grains apart. */
  lemma AlignedApart(a: Align, s: int, t: int)
    requires a.grain > 0 && IsAligned(a, s) && IsAligned(a, t) && s < t
    ensures s + a.grain <= t
  {
    RemZero(s - a.offset, a.grain);
    RemZero(t - a.offset, a.grain);
    MultiplesApart(s - a.offset, t - a.offset, a.grain);
  }

  lemma AlignedShift(a: Align, s: int, m: int)
    requires a.grain > 0 && IsAligned(a, s) && m % a.grain == 0
    ensures IsAligned(a, s + m) && IsAligned(a, s - m)
  {
    RemZero(s - a.offset, a.grain);
    RemZero(s + m - a.offset, a.grain);
    RemZero(s - m - a.offset, a.grain);
    SumMod(m, s - a.offset, a.grain);
  }

  lemma FromAligned(a: Align, m: int)
    requires a.grain > 0 && m % a.grain == 0
    ensures IsAligned(a, m + a.offset)
  {
    RemZero(m, a.grain);
    assert m + a.offset - a.offset == m;
  }

  lemma UpFromMeaning(a: Align, sector: int)
    requires a.Valid()
    ensures IsAligned(a, UpFrom(a, sector))
    ensures a.grain > 0 ==> sector <= UpFrom(a, sector) < sector + a.grain
  {
    if a.grain > 0 {
      RoundUpMeaning(sector - a.offset, a.grain);
      FromAligned(a, RoundUpTo(sector - a.offset, a.grain));
    }
  }

  /** Going down lands on the greatest aligned sector not above, except that an
      aligned sector below the offset is skipped for the one before it. */
  lemma DownFromMeaning(a: Align, sector: int)
    requires a.Valid()
    ensures IsAligned(a, DownFrom(a, sector))
    ensures a.grain > 0 ==> sector - a.grain <= DownFrom(a, sector) <= sector
    ensures a.grain > 0 ==> (DownFrom(a, sector) == sector - a.grain <==> IsAligned(a, sector) && sector < a.offset)
  {
    if a.grain > 0 {
      RoundDownMeaning(sector - a.offset, a.grain);
      AbsModMeaning(sector - a.offset, a.grain);
      RemZero(sector - a.offset, a.grain);
      FromAligned(a, RoundDownTo(sector - a.offset, a.grain));
    }
  }

  /** From an aligned sector, clamping into the region finds that sector when it
      is inside, the first fitting sector when it is before the region, and the
      last one when it is behind. */
  lemma ClosestInsideMeaning(a: Align, geom: Geom, sector: int)
    requires a.Valid() && geom.Valid() && IsAligned(a, sector)
    ensures var r := ClosestInside(a, geom, sector);
            && (geom.Contains(sector) ==> r == sector)
            && (sector < geom.start ==> IsFirst(a, geom, r))
            && (sector > geom.end ==> IsLast(a, geom, r))
  {
    var r := ClosestInside(a, geom, sector);
    if a.grain > 0 {
      if sector < geom.start {
        ClampUp(a, geom, sector);
      } else if sector > geom.end {
        ClampDown(a, geom, sector);
      }
    }
  }

  lemma ClampDown(a: Align, geom: Geom, sector: int)
    requires a.grain > 0 && geom.Valid() && IsAligned(a, sector) && sector > geom.end
    ensures IsLast(a, geom, ClosestInside(a, geom, sector))
  {
    var step := RoundUpTo(sector - geom.end, a.grain);
    RoundUpMeaning(sector - geom.end, a.grain);
    AlignedShift(a, sector, step);
    NoneAbove(a, geom, sector - step);
  }

  lemma ClampUp(a: Align, geom: Geom, sector: int)
    requires a.grain > 0 && geom.Valid() && IsAligned(a, sector) && sector < geom.start
    ensures IsFirst(a, geom, ClosestInside(a, geom, sector))
  {
    var step := RoundUpTo(geom.start - sector, a.grain);
    RoundUpMeaning(geom.start - sector, a.grain);
    AlignedShift(a, sector, step);
    var s1 := sector + step;
    forall t | Fits(a, geom, t) ensures s1 <= t {
      if t < s1 { AlignedApart(a, t, s1); }
    }
    if s1 > geom.end {
      ClampDown(a, geom, s1);
    }
  }

  /** An aligned sector within one grain of the region's end bounds all fitting ones. */
  lemma NoneAbove(a: Align, geom: Geom, s: int)
    requires a.grain > 0 && IsAligned(a, s) && s <= geom.end < s + a.grain
    ensures forall t :: Fits(a, geom, t) ==> t <= s
  {
    forall t | Fits(a, geom, t) ensures t <= s {
      if s < t { AlignedApart(a, s, t); }
    }
  }

  /** The sector returned is aligned, inside the region and at minimum distance
      from the one asked for; -1 is returned exactly when the region holds no
      aligned sector.  This holds for every integer asked for. */
  lemma NearestExact(a: Align, geom: Geom, sector: int)
    requires a.Valid() && geom.Valid()
    ensures IsNearest(a, geom, sector, AlignNearest(a, geom, sector))
  {
    hide ClosestInside, UpFrom, DownFrom;
    var u, d := UpFrom(a, sector), DownFrom(a, sector);
    UpFromMeaning(a, sector);
    DownFromMeaning(a, sector);
    ClosestInsideMeaning(a, geom, u);
    ClosestInsideMeaning(a, geom, d);
    if a.grain > 0 {
      var ru, rd := ClosestInside(a, geom, u), ClosestInside(a, geom, d);
      forall t | Fits(a, geom, t)
        ensures ru != NONE && rd != NONE
        ensures Abs(sector - ru) <= Abs(sector - t) || Abs(sector - rd) <= Abs(sector - t)
      {
        NearestFrom(a, geom, sector, t);
      }
    }
  }

  lemma NearestFrom(a: Align, geom: Geom, sector: int, t: int)
    requires a.grain > 0 && geom.Valid() && Fits(a, geom, t)
    ensures var ru := ClosestInside(a, geom, UpFrom(a, sector));
            var rd := ClosestInside(a, geom, DownFrom(a, sector));
            && ru != NONE && rd != NONE
            && (Abs(sector - ru) <= Abs(sector - t) || Abs(sector - rd) <= Abs(sector - t))
  {
    var u, d := UpFrom(a, sector), DownFrom(a, sector);
    UpFromMeaning(a, sector);
    DownFromMeaning(a, sector);
    ClosestInsideMeaning(a, geom, u);
    ClosestInsideMeaning(a, geom, d);
    if sector <= t < u { AlignedApart(a, t, u); }
    if d < t < sector { AlignedApart(a, d, t); }
  }

  /** Aligning the region's own start downwards finds the first fitting sector. */
  lemma DownFromStart(a: Align, geom: Geom)
    requires a.Valid() && geom.Valid()
    ensures IsFirst(a, geom, AlignDown(a, Some(geom), geom.start))
  {
    var d := DownFrom(a, geom.start);
    DownFromMeaning(a, geom.start);
    ClosestInsideMeaning(a, geom, d);
  }

  /** Aligning the region's own end upwards finds the last fitting sector. */
  lemma UpFromEnd(a: Align, geom: Geom)
    requires a.Valid() && geom.Valid()
    ensures IsLast(a, geom, AlignUp(a, Some(geom), geom.end))
  {
    var u := UpFrom(a, geom.end);
    UpFromMeaning(a, geom.end);
    ClosestInsideMeaning(a, geom, u);
  }
}
