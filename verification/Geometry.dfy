/** Regions of one device (libparted/cs/geom.c).  A region is a non-empty run of
    sectors; `length` is always `end - start + 1`, so it is not stored. */
module Geometry {
  import opened CInt

  datatype Option<+T> = None | Some(value: T)

  datatype Geom = Geom(start: int, end: int) {
    function Length(): int {
      end - start + 1
    }

    /** The conditions a region handled through the library satisfies. */
    predicate Valid() {
      0 <= start <= end
    }

    predicate Contains(sector: int) {
      start <= sector <= end
    }

    /** `ped_geometry_test_inside (this, b)` */
    predicate Encloses(b: Geom) {
      b.start >= start && b.end <= end
    }
  }

  /** `ped_geometry_init`: refuses an empty region. */
  function Make(start: int, length: int): (r: Option<Geom>)
    ensures r.Some? <==> length >= 1
    ensures r.Some? ==> r.value.start == start && r.value.Length() == length
  {
    if length < 1 then None else Some(Geom(start, start + length - 1))
  }

  /** `ped_geometry_intersect` */
  function Intersect(a: Geom, b: Geom): (r: Option<Geom>)
  {
    var start := Max(a.start, b.start);
    var end := Min(a.end, b.end);
    if start > end then None else Some(Geom(start, end))
  }

  /** The intersection holds exactly the common sectors, and is absent exactly
      when there are none. */
  lemma IntersectExact(a: Geom, b: Geom, sector: int)
    ensures (Intersect(a, b).Some? && Intersect(a, b).value.Contains(sector))
            <==> a.Contains(sector) && b.Contains(sector)
  {
  }

  /** `ped_geometry_test_overlap` */
  predicate Overlap(a: Geom, b: Geom) {
    if a.start < b.start then a.end >= b.start else b.end >= a.start
  }

  predicate Apart(a: Geom, b: Geom) {
    a.end < b.start || b.end < a.start
  }

  /** The overlap test is true exactly when some sector belongs to both. */
  lemma OverlapMeaning(a: Geom, b: Geom)
    requires a.Valid() && b.Valid()
    ensures Overlap(a, b) <==> exists s :: a.Contains(s) && b.Contains(s)
    ensures Overlap(a, b) <==> !Apart(a, b)
  {
    var s := Max(a.start, b.start);
    if Overlap(a, b) {
      assert a.Contains(s) && b.Contains(s);
    }
  }
}
