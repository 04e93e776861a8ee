/** Constraints on the placement of a region and their solver
    (libparted/cs/constraint.c).  `len` is the length of the one device that all
    ranges refer to. */
module Constraint {
  import opened CInt
  import opened Geometry
  import A = Alignment
  import opened Placement

  datatype Constraint = Constraint(
    startAlign: Option<A.Align>, endAlign: Option<A.Align>,
    startRange: Geom, endRange: Geom,
    minSize: int, maxSize: int)
  {
    /** What `ped_constraint_init` asserts of its arguments. */
    predicate Valid() {
      && A.ValidOpt(startAlign) && A.ValidOpt(endAlign)
      && startRange.Valid() && endRange.Valid()
      && minSize > 0 && maxSize > 0
    }

    /** What the solver further asserts: both alignments are present. */
    predicate Solvable() {
      Valid() && startAlign.Some? && endAlign.Some?
    }
  }

  predicate ValidOpt(c: Option<Constraint>) {
    c.Some? ==> c.value.Valid()
  }

  /** `ped_constraint_new` */
  function New(startAlign: Option<A.Align>, endAlign: Option<A.Align>,
               startRange: Geom, endRange: Geom, minSize: int, maxSize: int): (c: Constraint)
    requires A.ValidOpt(startAlign) && A.ValidOpt(endAlign)
    requires startRange.Valid() && endRange.Valid() && minSize > 0 && maxSize > 0
    ensures c.Valid()
  {
    Constraint(A.Duplicate(startAlign), A.Duplicate(endAlign), startRange, endRange, minSize, maxSize)
  }

  /** `ped_constraint_new_from_max` */
  function FromMax(max: Geom): (c: Constraint)
    requires max.Valid()
    ensures c.Solvable()
  {
    New(Some(A.Any), Some(A.Any), max, max, 1, max.Length())
  }

  /** `ped_constraint_new_from_min_max` */
  function FromMinMax(min: Geom, max: Geom): (c: Constraint)
    requires min.Valid() && max.Valid() && max.Encloses(min)
    ensures c.Solvable()
  {
    New(Some(A.Any), Some(A.Any), Geom(max.start, min.start), Geom(min.end, max.end),
        min.Length(), max.Length())
  }

  /** `ped_constraint_any` */
  function AnyOn(len: int): (c: Constraint)
    requires len > 0
    ensures c.Solvable()
  {
    New(Some(A.Any), Some(A.Any), Geom(0, len - 1), Geom(0, len - 1), 1, len)
  }

  /** `ped_constraint_exact` */
  function Exact(geom: Geom, len: int): (c: Constraint)
    requires geom.Valid() && len > 0
    ensures c.Solvable()
  {
    New(Some(A.Align(geom.start, 0)), Some(A.Align(geom.end, 0)),
        Geom(geom.start, geom.start), Geom(geom.end, geom.end), 1, len)
  }

  /** `ped_constraint_is_solution` */
  predicate IsSolution(c: Constraint, geom: Geom)
    requires c.Valid()
  {
    && A.Admits(c.startAlign, geom.start)
    && A.Admits(c.endAlign, geom.end)
    && c.startRange.Contains(geom.start)
    && c.endRange.Contains(geom.end)
    && c.minSize <= geom.Length() <= c.maxSize
  }

  /** The absent constraint has no solution. */
  predicate Solves(c: Option<Constraint>, geom: Geom)
    requires ValidOpt(c)
  {
    c.Some? && IsSolution(c.value, geom)
  }

  /** `ped_constraint_intersect` */
  function Intersect(a: Option<Constraint>, b: Option<Constraint>): (r: Option<Constraint>)
    requires ValidOpt(a) && ValidOpt(b)
    ensures ValidOpt(r)
    ensures r.Some? ==> r.value.Solvable()
  {
    if a.None? || b.None? then None
    else
      var startAlign := A.Intersect(a.value.startAlign, b.value.startAlign);
      if startAlign.None? then None else
      var endAlign := A.Intersect(a.value.endAlign, b.value.endAlign);
      if endAlign.None? then None else
      var startRange := Geometry.Intersect(a.value.startRange, b.value.startRange);
      if startRange.None? then None else
      var endRange := Geometry.Intersect(a.value.endRange, b.value.endRange);
      if endRange.None? then None else
      Some(New(startAlign, endAlign, startRange.value, endRange.value,
               Max(a.value.minSize, b.value.minSize), Min(a.value.maxSize, b.value.maxSize)))
  }

  lemma DuplicateKeepsClass(a: Option<A.Align>, s: int)
    requires A.ValidOpt(a)
    ensures A.ValidOpt(A.Duplicate(a))
    ensures A.Admits(A.Duplicate(a), s) <==> A.Admits(a, s)
  {
    if a.Some? { A.NewKeepsClass(a.value.offset, a.value.grain, s); }
  }

  /** A region solves the intersection exactly when it solves both constraints. */
  lemma IntersectExact(a: Option<Constraint>, b: Option<Constraint>, geom: Geom)
    requires ValidOpt(a) && ValidOpt(b)
    ensures Solves(Intersect(a, b), geom) <==> Solves(a, geom) && Solves(b, geom)
  {
    if a.Some? && b.Some? {
      var sa := A.Intersect(a.value.startAlign, b.value.startAlign);
      var ea := A.Intersect(a.value.endAlign, b.value.endAlign);
      A.IntersectExact(a.value.startAlign, b.value.startAlign, geom.start);
      A.IntersectExact(a.value.endAlign, b.value.endAlign, geom.end);
      DuplicateKeepsClass(sa, geom.start);
      DuplicateKeepsClass(ea, geom.end);
      Geometry.IntersectExact(a.value.startRange, b.value.startRange, geom.start);
      Geometry.IntersectExact(a.value.endRange, b.value.endRange, geom.end);
    }
  }

  lemma AnyAdmits(s: int)
    ensures A.New(0, 1).Some? && A.IsAligned(A.New(0, 1).value, s)
    ensures A.IsAligned(A.Any, s)
  {
    A.NewKeepsClass(0, 1, s);
  }

  /** The convenience constructors admit exactly the regions they name. */
  lemma FromMaxMeaning(max: Geom, geom: Geom)
    requires max.Valid() && geom.Valid()
    ensures IsSolution(FromMax(max), geom) <==> max.Encloses(geom)
  {
    AnyAdmits(geom.start);
    AnyAdmits(geom.end);
  }

  lemma AnyMeaning(len: int, geom: Geom)
    requires len > 0 && geom.Valid()
    ensures IsSolution(AnyOn(len), geom) <==> geom.end < len
  {
    AnyAdmits(geom.start);
    AnyAdmits(geom.end);
  }

  lemma FromMinMaxMeaning(min: Geom, max: Geom, geom: Geom)
    requires min.Valid() && max.Valid() && max.Encloses(min)
    ensures IsSolution(FromMinMax(min, max), geom) <==> max.Encloses(geom) && geom.Encloses(min)
  {
    AnyAdmits(geom.start);
    AnyAdmits(geom.end);
  }

  lemma ExactMeaning(region: Geom, len: int, geom: Geom)
    requires region.Valid() && region.end < len
    ensures IsSolution(Exact(region, len), geom) <==> geom == region
  {
  }

  // ---- the solver ---------------------------------------------------------

  function FirstEnd(c: Constraint): int
    requires c.Solvable()
  {
    AlignDown(c.endAlign.value, Some(c.endRange), c.endRange.start)
  }

  function LastEnd(c: Constraint): int
    requires c.Solvable()
  {
    AlignUp(c.endAlign.value, Some(c.endRange), c.endRange.end)
  }

  /** `_constraint_get_canonical_start_range` */
  function CanonicalStartRange(c: Constraint): (r: Option<Geom>)
    requires c.Solvable()
    ensures r.Some? ==> r.value.Valid()
  {
    if c.minSize > c.maxSize then None else
    var first := FirstEnd(c);
    var last := LastEnd(c);
    if first == NONE || last == NONE || first > last || last < c.minSize then None else
    var minStart := Max(first - c.maxSize + 1, 0);
    var maxStart := last - c.minSize + 1;
    if maxStart < 0 then None
    else Geometry.Intersect(Geom(minStart, maxStart), c.startRange)
  }

  /** `_constraint_get_nearest_start_soln` */
  function NearestStart(c: Constraint, start: int): int
    requires c.Solvable()
  {
    var range := CanonicalStartRange(c);
    if range.None? then NONE else AlignNearest(c.startAlign.value, range.value, start)
  }

  /** `_constraint_get_end_range` */
  function EndRange(c: Constraint, start: int, len: int): (r: Option<Geom>)
    requires c.Solvable()
  {
    if start + c.minSize - 1 > len - 1 then None
    else
      var first := start + c.minSize - 1;
      var last := Min(start + c.maxSize - 1, len - 1);
      Geometry.Intersect(Geom(first, last), c.endRange)
  }

  /** `_constraint_get_nearest_end_soln` */
  function NearestEnd(c: Constraint, start: int, end: int, len: int): int
    requires c.Solvable()
  {
    var range := EndRange(c, start, len);
    if range.None? then NONE else AlignNearest(c.endAlign.value, range.value, end)
  }

  /** `ped_constraint_solve_nearest` */
  function SolveNearest(c: Option<Constraint>, geom: Geom, len: int): (r: Option<Geom>)
    requires c.Some? ==> c.value.Solvable()
  {
    if c.None? then None else
    var start := NearestStart(c.value, geom.start);
    if start == NONE then None else
    var end := NearestEnd(c.value, start, geom.end, len);
    if end == NONE then None else
    Make(start, end - start + 1)
  }

  /** `ped_constraint_solve_max` */
  function SolveMax(c: Option<Constraint>, len: int): Option<Geom>
    requires c.Some? ==> c.value.Solvable()
  {
    SolveNearest(c, Geom(0, len - 1), len)
  }

  // ---- what the solver finds ----------------------------------------------

  lemma StartFacts(c: Constraint, start: int)
    requires c.Solvable()
    ensures CanonicalStartRange(c).Some? ==>
              IsNearest(c.startAlign.value, CanonicalStartRange(c).value, start, NearestStart(c, start))
  {
    var range := CanonicalStartRange(c);
    if range.Some? { NearestExact(c.startAlign.value, range.value, start); }
  }

  lemma EndFacts(c: Constraint, start: int, end: int, len: int)
    requires c.Solvable() && start >= 0
    ensures EndRange(c, start, len).Some? ==>
              IsNearest(c.endAlign.value, EndRange(c, start, len).value, end, NearestEnd(c, start, end, len))
  {
    var range := EndRange(c, start, len);
    if range.Some? { NearestExact(c.endAlign.value, range.value, end); }
  }

  /** Soundness: whatever is returned is a solution, and lies on the device. */
  lemma SolveSound(c: Constraint, geom: Geom, len: int)
    requires c.Solvable()
    ensures var r := SolveNearest(Some(c), geom, len);
            r.Some? ==> r.value.Valid() && r.value.end < len && IsSolution(c, r.value)
  {
    var start := NearestStart(c, geom.start);
    StartFacts(c, geom.start);
    if start != NONE {
      EndFacts(c, start, geom.end, len);
    }
  }

  /** The ends allowed together with a start, by size and range. */
  predicate IsEndFor(c: Constraint, start: int, end: int)
    requires c.Solvable()
  {
    Fits(c.endAlign.value, c.endRange, end) && c.minSize <= end - start + 1 <= c.maxSize
  }

  /** The grain of the ends is no wider than the window of sizes. */
  predicate FineEnds(c: Constraint)
    requires c.Solvable()
  {
    c.endAlign.value.grain <= Max(c.maxSize - c.minSize + 1, 0)
  }

  ghost predicate HasSolution(c: Constraint)
    requires c.Valid()
  {
    exists s: Geom :: s.Valid() && IsSolution(c, s)
  }

  /** Every aligned start of the canonical range has an end. */
  lemma StartHasEnd(c: Constraint, start: int) returns (end: int)
    requires c.Solvable() && FineEnds(c)
    requires CanonicalStartRange(c).Some? && CanonicalStartRange(c).value.Contains(start)
    ensures IsEndFor(c, start, end)
  {
    var a := c.endAlign.value;
    var first, last := FirstEnd(c), LastEnd(c);
    DownFromStart(a, c.endRange);
    UpFromEnd(a, c.endRange);
    var low := start + c.minSize - 1;
    if low <= first {
      end := first;
    } else if a.grain == 0 {
      end := last;
    } else {
      end := UpFrom(a, low);
      UpFromMeaning(a, low);
      if last < end { AlignedApart(a, last, end); }
    }
  }

  /** Every solution starts in the canonical range, unless the last aligned end
      is exactly `minSize - 1`, a case the code rejects outright. */
  lemma SolutionStarts(c: Constraint, s: Geom)
    requires c.Solvable() && s.Valid() && IsSolution(c, s)
    ensures LastEnd(c) >= c.minSize - 1
    ensures LastEnd(c) >= c.minSize ==>
              CanonicalStartRange(c).Some? && CanonicalStartRange(c).value.Contains(s.start)
    ensures LastEnd(c) == c.minSize - 1 ==> s == Geom(0, c.minSize - 1)
  {
    DownFromStart(c.endAlign.value, c.endRange);
    UpFromEnd(c.endAlign.value, c.endRange);
    assert Fits(c.endAlign.value, c.endRange, s.end);
  }

  /** Completeness, exactly: with fine ends inside the device, the solver misses
      a satisfiable constraint in one case only, namely when the region of the
      first `minSize` sectors is a solution that ends at the last aligned end. */
  lemma SolveComplete(c: Constraint, geom: Geom, len: int)
    requires c.Solvable() && FineEnds(c) && c.endRange.end < len
    ensures SolveNearest(Some(c), geom, len).None? && HasSolution(c)
            <==> LastEnd(c) == c.minSize - 1 && IsSolution(c, Geom(0, c.minSize - 1))
  {
    if LastEnd(c) == c.minSize - 1 && IsSolution(c, Geom(0, c.minSize - 1)) {
      assert Geom(0, c.minSize - 1).Valid();
      assert NearestStart(c, geom.start) == NONE;
    }
    if HasSolution(c) {
      var s: Geom :| s.Valid() && IsSolution(c, s);
      SolutionStarts(c, s);
      if LastEnd(c) >= c.minSize {
        SolveFinds(c, geom, len, s);
      }
    }
  }

  /** Once a start is chosen, the end is nearest among the ends for it. */
  lemma SolveAt(c: Constraint, geom: Geom, len: int, start: int, end: int)
    requires c.Solvable() && c.endRange.end < len
    requires start == NearestStart(c, geom.start) && start >= 0 && IsEndFor(c, start, end)
    ensures var r := SolveNearest(Some(c), geom, len);
            && r.Some? && r.value.start == start
            && Abs(geom.end - r.value.end) <= Abs(geom.end - end)
            && r.value.end < len
  {
    EndFacts(c, start, geom.end, len);
    assert Fits(c.endAlign.value, EndRange(c, start, len).value, end);
  }

  /** Optimality: when the last aligned end is at least `minSize`, the start that
      is returned is nearest to the requested one among the starts of all
      solutions, and the end is nearest among the ends for that start. */
  lemma SolveFinds(c: Constraint, geom: Geom, len: int, s: Geom)
    requires c.Solvable() && FineEnds(c) && c.endRange.end < len
    requires LastEnd(c) >= c.minSize && s.Valid() && IsSolution(c, s)
    ensures var r := SolveNearest(Some(c), geom, len);
            && r.Some?
            && Abs(geom.start - r.value.start) <= Abs(geom.start - s.start)
            && (s.start == r.value.start ==> Abs(geom.end - r.value.end) <= Abs(geom.end - s.end))
  {
    SolutionStarts(c, s);
    StartFacts(c, geom.start);
    var range := CanonicalStartRange(c).value;
    assert Fits(c.startAlign.value, range, s.start);
    var start := NearestStart(c, geom.start);
    assert Fits(c.startAlign.value, range, start);
    var end := StartHasEnd(c, start);
    SolveAt(c, geom, len, start, if s.start == start then s.end else end);
  }

  ghost predicate HasEnd(c: Constraint, start: int)
    requires c.Solvable()
  {
    exists end :: IsEndFor(c, start, end)
  }

  /** Every aligned start the solver may choose has an end. */
  ghost predicate EveryStartHasEnd(c: Constraint)
    requires c.Solvable() && CanonicalStartRange(c).Some?
  {
    forall s :: Fits(c.startAlign.value, CanonicalStartRange(c).value, s) ==> HasEnd(c, s)
  }

  /** One request is met exactly when the start chosen for it has an end. */
  lemma SolveExactly(c: Constraint, geom: Geom, len: int)
    requires c.Solvable() && c.endRange.end < len
    ensures SolveNearest(Some(c), geom, len).Some? <==>
            NearestStart(c, geom.start) != NONE && HasEnd(c, NearestStart(c, geom.start))
  {
    var start := NearestStart(c, geom.start);
    StartFacts(c, geom.start);
    if start != NONE {
      SolveSound(c, geom, len);
      if SolveNearest(Some(c), geom, len).Some? {
        assert IsEndFor(c, start, SolveNearest(Some(c), geom, len).value.end);
      }
      if HasEnd(c, start) {
        var end :| IsEndFor(c, start, end);
        SolveAt(c, geom, len, start, end);
      }
    }
  }

  /** Asked for an aligned start of the canonical range, the solver chooses it. */
  lemma StartChosen(c: Constraint, start: int)
    requires c.Solvable() && CanonicalStartRange(c).Some?
    requires Fits(c.startAlign.value, CanonicalStartRange(c).value, start)
    ensures NearestStart(c, start) == start
  {
    StartFacts(c, start);
  }

  /** A satisfiable constraint is solved for every request exactly when every aligned
      start of the canonical range has an end; fine ends are enough for that. */
  lemma SolveAlways(c: Constraint, len: int)
    requires c.Solvable() && c.endRange.end < len && LastEnd(c) >= c.minSize && HasSolution(c)
    ensures CanonicalStartRange(c).Some?
    ensures (forall geom :: SolveNearest(Some(c), geom, len).Some?) <==> EveryStartHasEnd(c)
    ensures FineEnds(c) ==> EveryStartHasEnd(c)
  {
    var known: Geom :| known.Valid() && IsSolution(c, known);
    SolutionStarts(c, known);
    var range := CanonicalStartRange(c).value;
    assert Fits(c.startAlign.value, range, known.start);
    if forall geom :: SolveNearest(Some(c), geom, len).Some? {
      forall s | Fits(c.startAlign.value, range, s) ensures HasEnd(c, s) {
        StartChosen(c, s);
        SolveExactly(c, Geom(s, s), len);
        assert SolveNearest(Some(c), Geom(s, s), len).Some?;
      }
    }
    if EveryStartHasEnd(c) {
      forall geom ensures SolveNearest(Some(c), geom, len).Some? {
        StartFacts(c, geom.start);
        SolveExactly(c, geom, len);
      }
    }
    if FineEnds(c) {
      forall s | Fits(c.startAlign.value, range, s) ensures HasEnd(c, s) {
        var end := StartHasEnd(c, s);
      }
    }
  }

  /** Without fine ends the solver can miss a solution.  Ends are multiples of
      `g` and sizes run from `n` to `m <= g`: asked to start at 0 the solver gives
      up, although the `n` sectors ending at sector `g` are a solution. */
  lemma CoarseEndsMissed(c: Constraint, starts: A.Align, g: int, n: int, m: int)
    requires CoarseEnds(c, starts, g, n, m)
    ensures c.Solvable() && !FineEnds(c) && LastEnd(c) >= c.minSize
    ensures SolveNearest(Some(c), Geom(0, n - 1), g + 1).None?
    ensures IsSolution(c, Geom(g - n + 1, g))
  {
    CoarseStart(c, starts, g, n, m);
    CoarseEnd(c, starts, g, n, m);
  }

  predicate CoarseEnds(c: Constraint, starts: A.Align, g: int, n: int, m: int) {
    && 2 <= n <= m <= g
    && starts.Valid() && A.IsAligned(starts, 0) && A.IsAligned(starts, g - n + 1)
    && c == Constraint(Some(starts), Some(A.Align(0, g)), Geom(0, g), Geom(0, g), n, m)
  }

  lemma CoarseStart(c: Constraint, starts: A.Align, g: int, n: int, m: int)
    requires CoarseEnds(c, starts, g, n, m)
    ensures c.Solvable() && LastEnd(c) == g && NearestStart(c, 0) == 0
    ensures A.IsAligned(c.endAlign.value, g)
  {
    var a := A.Align(0, g);
    MultiplesUpTo(a);
    assert Fits(a, Geom(0, g), 0) && Fits(a, Geom(0, g), g);
    EndsAre(c, 0, g);
    StartChosen(c, 0);
  }

  lemma CoarseEnd(c: Constraint, starts: A.Align, g: int, n: int, m: int)
    requires CoarseEnds(c, starts, g, n, m)
    ensures NearestEnd(c, 0, n - 1, g + 1) == NONE
  {
    var a := A.Align(0, g);
    MultiplesUpTo(a);
    EndFacts(c, 0, n - 1, g + 1);
    var range := EndRange(c, 0, g + 1).value;
    forall t | Fits(a, range, t) ensures false { assert Fits(a, Geom(0, g), t); }
  }

  lemma MultiplesUpTo(a: A.Align)
    requires a.offset == 0 && a.grain > 0
    ensures forall t :: Fits(a, Geom(0, a.grain), t) <==> t == 0 || t == a.grain
  {
    RemZero(0, a.grain);
    RemZero(a.grain, a.grain);
    MulMod(1, a.grain);
    assert 0 - a.offset == 0 && a.grain - a.offset == a.grain;
    forall t | Fits(a, Geom(0, a.grain), t) ensures t == 0 || t == a.grain {
      if 0 < t { AlignedApart(a, 0, t); }
    }
  }

  lemma EndsAre(c: Constraint, first: int, last: int)
    requires c.Solvable() && first != NONE && last != NONE
    requires IsFirst(c.endAlign.value, c.endRange, first)
    requires IsLast(c.endAlign.value, c.endRange, last)
    ensures FirstEnd(c) == first && LastEnd(c) == last
  {
    DownFromStart(c.endAlign.value, c.endRange);
    UpFromEnd(c.endAlign.value, c.endRange);
    assert Fits(c.endAlign.value, c.endRange, first);
    assert Fits(c.endAlign.value, c.endRange, last);
  }

  /** `c` admits the region and no other: both its alignments are single sectors. */
  predicate Pinned(c: Option<Constraint>, region: Geom) {
    && c.Some? && c.value.Solvable() && c.value.minSize == 1
    && c.value.startAlign.value.grain == 0 && c.value.endAlign.value.grain == 0
    && IsSolution(c.value, region)
  }

  lemma PinnedOnly(c: Option<Constraint>, region: Geom, g: Geom)
    requires Pinned(c, region) && Solves(c, g)
    ensures g == region
  {
  }

  lemma ExactPinned(region: Geom, len: int)
    requires region.Valid() && region.end < len
    ensures Pinned(Some(Exact(region, len)), region)
  {
    ExactMeaning(region, len, region);
  }

  /** Narrowing a pinned constraint by another that admits the region. */
  lemma PinnedIntersect(a: Option<Constraint>, b: Option<Constraint>, region: Geom)
    requires ValidOpt(a) && ValidOpt(b) && Solves(a, region) && Solves(b, region)
    requires Pinned(a, region) || Pinned(b, region)
    requires a.value.minSize == 1 && b.value.minSize == 1
    ensures Pinned(Intersect(a, b), region)
  {
    hide IsSolution, A.Intersect;
    IntersectExact(a, b, region);
    A.PointStaysPoint(a.value.startAlign, b.value.startAlign);
    A.PointStaysPoint(a.value.endAlign, b.value.endAlign);
  }

  /** The one solution is found, whatever region was asked for, unless it ends on
      sector 0. */
  lemma PinnedSolved(c: Option<Constraint>, region: Geom, geom: Geom, len: int)
    requires Pinned(c, region) && region.Valid() && 0 < region.end < len
    ensures SolveNearest(c, geom, len) == Some(region)
  {
    var k := c.value;
    UpFromEnd(k.endAlign.value, k.endRange);
    DownFromStart(k.endAlign.value, k.endRange);
    assert Fits(k.endAlign.value, k.endRange, region.end);
    var start := NearestStart(k, geom.start);
    StartFacts(k, geom.start);
    assert Fits(k.startAlign.value, CanonicalStartRange(k).value, region.start);
    EndFacts(k, start, geom.end, len);
    assert Fits(k.endAlign.value, EndRange(k, start, len).value, region.end);
  }

  // ---- the largest solution -----------------------------------------------

  /** The length of the longest region from `start` that the solver could end; 0 if none. */
  function LongestFrom(c: Constraint, start: int, len: int): int
    requires c.Solvable()
  {
    var end := NearestEnd(c, start, len - 1, len);
    if end == NONE then 0 else end - start + 1
  }

  lemma LongestMeaning(c: Constraint, start: int, len: int)
    requires c.Solvable() && start >= 0 && c.endRange.end < len
    ensures HasEnd(c, start) <==> LongestFrom(c, start, len) > 0
    ensures HasEnd(c, start) ==> IsEndFor(c, start, start + LongestFrom(c, start, len) - 1)
    ensures forall end :: IsEndFor(c, start, end) ==> end - start + 1 <= LongestFrom(c, start, len)
  {
    EndFacts(c, start, len - 1, len);
    var top := NearestEnd(c, start, len - 1, len);
    if top != NONE { assert IsEndFor(c, start, top); }
    forall end | IsEndFor(c, start, end) ensures top != NONE && end <= top {
      assert Fits(c.endAlign.value, EndRange(c, start, len).value, end);
    }
  }

  /** The region found is at least as long as every solution. */
  ghost predicate FindsLongest(c: Constraint, len: int)
    requires c.Solvable()
  {
    var r := SolveMax(Some(c), len);
    r.Some? && forall s: Geom :: s.Valid() && IsSolution(c, s) ==> s.Length() <= r.value.Length()
  }

  /** No aligned start of the canonical range allows a longer region than the first one. */
  ghost predicate FirstIsBest(c: Constraint, len: int)
    requires c.Solvable()
  {
    && LastEnd(c) >= c.minSize && CanonicalStartRange(c).Some?
    && var first := NearestStart(c, 0);
       && LongestFrom(c, first, len) > 0
       && forall s :: Fits(c.startAlign.value, CanonicalStartRange(c).value, s) ==>
            LongestFrom(c, s, len) <= LongestFrom(c, first, len)
  }

  /** The largest-region solver of a satisfiable constraint finds a longest solution
      exactly when the first start is a best one. */
  lemma SolveMaxExactly(c: Constraint, len: int)
    requires c.Solvable() && c.endRange.end < len && HasSolution(c)
    ensures FindsLongest(c, len) <==> FirstIsBest(c, len)
  {
    hide IsSolution, NearestStart, LongestFrom, SolveMax, CanonicalStartRange, FirstIsBest, FindsLongest;
    var known: Geom :| known.Valid() && IsSolution(c, known);
    if LastEnd(c) >= c.minSize {
      if FirstIsBest(c, len) { BestFinds(c, len, known); }
      if FindsLongest(c, len) { FindsBest(c, len, known); }
    } else {
      NoCanonicalRange(c, len);
    }
  }

  lemma BestFinds(c: Constraint, len: int, known: Geom)
    requires c.Solvable() && c.endRange.end < len && known.Valid() && IsSolution(c, known) && FirstIsBest(c, len)
    ensures FindsLongest(c, len)
  {
    hide IsSolution, NearestStart, LongestFrom, SolveMax, CanonicalStartRange;
    FirstStart(c, known);
    MaxIs(c, len);
    forall s: Geom | s.Valid() && IsSolution(c, s) ensures s.Length() <= LongestFrom(c, NearestStart(c, 0), len) {
      SolutionLength(c, s, len);
    }
  }

  lemma FindsBest(c: Constraint, len: int, known: Geom)
    requires c.Solvable() && c.endRange.end < len && known.Valid() && IsSolution(c, known)
    requires LastEnd(c) >= c.minSize && FindsLongest(c, len)
    ensures FirstIsBest(c, len)
  {
    hide IsSolution, NearestStart, LongestFrom, SolveMax, CanonicalStartRange;
    FirstStart(c, known);
    MaxIs(c, len);
    SolutionLength(c, known, len);
    forall s | Fits(c.startAlign.value, CanonicalStartRange(c).value, s)
      ensures LongestFrom(c, s, len) <= LongestFrom(c, NearestStart(c, 0), len)
    {
      LongestSolves(c, s, len);
    }
  }

  lemma NoCanonicalRange(c: Constraint, len: int)
    requires c.Solvable() && LastEnd(c) < c.minSize
    ensures !FindsLongest(c, len) && !FirstIsBest(c, len)
  {
  }

  /** What the solver makes of the first start. */
  lemma MaxIs(c: Constraint, len: int)
    requires c.Solvable() && c.endRange.end < len && NearestStart(c, 0) >= 0
    ensures var first, r := NearestStart(c, 0), SolveMax(Some(c), len);
            if LongestFrom(c, first, len) > 0 then r.Some? && r.value.Length() == LongestFrom(c, first, len) else r.None?
  {
    hide NearestStart;
    LongestMeaning(c, NearestStart(c, 0), len);
  }

  lemma SolutionLength(c: Constraint, s: Geom, len: int)
    requires c.Solvable() && c.endRange.end < len && LastEnd(c) >= c.minSize && s.Valid() && IsSolution(c, s)
    ensures CanonicalStartRange(c).Some? && Fits(c.startAlign.value, CanonicalStartRange(c).value, s.start)
    ensures s.Length() <= LongestFrom(c, s.start, len)
  {
    hide CanonicalStartRange, LongestFrom;
    SolutionStarts(c, s);
    LongestMeaning(c, s.start, len);
    assert IsEndFor(c, s.start, s.end);
  }

  /** The longest region from an aligned start of the range is a solution. */
  lemma LongestSolves(c: Constraint, s: int, len: int)
    requires c.Solvable() && c.endRange.end < len && CanonicalStartRange(c).Some?
    requires Fits(c.startAlign.value, CanonicalStartRange(c).value, s)
    ensures LongestFrom(c, s, len) > 0 ==>
              var g := Geom(s, s + LongestFrom(c, s, len) - 1);
              g.Valid() && IsSolution(c, g) && g.Length() == LongestFrom(c, s, len)
  {
    hide LongestFrom;
    LongestMeaning(c, s, len);
  }

  /** The maximum size does not spoil the first start: every sector may be an end, or
      the last aligned end is within that size of it, as when the whole device is
      allowed. */
  predicate MaxSizeHarmless(c: Constraint, len: int)
    requires c.Solvable()
  {
    c.endAlign.value == A.Any || c.maxSize >= len || LastEnd(c) - NearestStart(c, 0) < c.maxSize
  }

  lemma HarmlessIsBest(c: Constraint, len: int)
    requires c.Solvable() && MaxSizeHarmless(c, len) && c.endRange.end < len && LastEnd(c) >= c.minSize && HasSolution(c)
    ensures FirstIsBest(c, len)
  {
    hide IsSolution, LongestFrom, Fits, CanonicalStartRange, NearestStart;
    var known: Geom :| known.Valid() && IsSolution(c, known);
    HarmlessAt(c, len, known);
    SolutionLength(c, known, len);
    var first := NearestStart(c, 0);
    forall s | Fits(c.startAlign.value, CanonicalStartRange(c).value, s)
      ensures LongestFrom(c, s, len) <= LongestFrom(c, first, len)
    {
      LongestSolves(c, s, len);
      if LongestFrom(c, s, len) > 0 { HarmlessAt(c, len, Geom(s, s + LongestFrom(c, s, len) - 1)); }
    }
  }

  lemma HarmlessAt(c: Constraint, len: int, s: Geom)
    requires c.Solvable() && MaxSizeHarmless(c, len) && c.endRange.end < len
    requires LastEnd(c) >= c.minSize && s.Valid() && IsSolution(c, s)
    ensures 0 < s.Length() <= LongestFrom(c, NearestStart(c, 0), len)
  {
    hide LongestFrom;
    FirstStart(c, s);
    var start := NearestStart(c, 0);
    var top := TopEnd(c, len, s, start, FirstEnd(c), LastEnd(c));
    LongestMeaning(c, start, len);
  }

  /** So it is when the maximum size does no harm. */
  lemma SolveMaxLongest(c: Constraint, len: int, s: Geom)
    requires c.Solvable() && MaxSizeHarmless(c, len) && c.endRange.end < len
    requires LastEnd(c) >= c.minSize && s.Valid() && IsSolution(c, s)
    ensures var r := SolveMax(Some(c), len);
            r.Some? && IsSolution(c, r.value) && s.Length() <= r.value.Length()
  {
    hide IsSolution, SolveMax, FirstIsBest;
    HarmlessIsBest(c, len);
    SolveMaxExactly(c, len);
    MaxSound(c, len);
  }

  lemma MaxSound(c: Constraint, len: int)
    requires c.Solvable()
    ensures var r := SolveMax(Some(c), len); r.Some? ==> r.value.Valid() && IsSolution(c, r.value)
  {
    hide IsSolution;
    SolveSound(c, Geom(0, len - 1), len);
  }

  /** Asked for start 0, the solver takes the least start of all solutions. */
  lemma FirstStart(c: Constraint, s: Geom)
    requires c.Solvable() && LastEnd(c) >= c.minSize && s.Valid() && IsSolution(c, s)
    ensures 0 <= NearestStart(c, 0) <= s.start
    ensures FirstEnd(c) - c.maxSize + 1 <= NearestStart(c, 0) <= LastEnd(c) - c.minSize + 1
    ensures IsFirst(c.endAlign.value, c.endRange, FirstEnd(c))
    ensures IsLast(c.endAlign.value, c.endRange, LastEnd(c))
    ensures FirstEnd(c) != NONE && LastEnd(c) != NONE
  {
    SolutionStarts(c, s);
    StartFacts(c, 0);
    assert Fits(c.startAlign.value, CanonicalStartRange(c).value, s.start);
    UpFromEnd(c.endAlign.value, c.endRange);
    DownFromStart(c.endAlign.value, c.endRange);
  }

  /** Some end for that start makes the region as long as the given solution. */
  lemma TopEnd(c: Constraint, len: int, s: Geom, start: int, first: int, last: int) returns (top: int)
    requires c.Solvable() && MaxSizeHarmless(c, len) && c.endRange.end < len
    requires s.Valid() && IsSolution(c, s)
    requires IsFirst(c.endAlign.value, c.endRange, first) && first != NONE
    requires IsLast(c.endAlign.value, c.endRange, last) && last != NONE
    requires 0 <= start <= s.start && first - c.maxSize + 1 <= start <= last - c.minSize + 1
    requires start == NearestStart(c, 0) && last == LastEnd(c)
    ensures IsEndFor(c, start, top) && top - start >= s.end - s.start
  {
    var a := c.endAlign.value;
    assert Fits(a, c.endRange, s.end);
    if c.maxSize >= len || last - start < c.maxSize {
      top := last;
    } else {
      top := Min(start + c.maxSize - 1, last);
      AnyAdmits(top);
    }
  }

  /** Elsewhere the first start can be a poor one.  Starts are multiples of
      `g >= 3`, ends are sectors 0 and `2g - 1`, sizes at most `g`: the one-sector
      region at 0 is returned although the last `g` sectors are a solution. */
  lemma SolveMaxMisses(c: Constraint, g: int)
    requires PoorFirst(c, g)
    ensures c.Solvable() && LastEnd(c) >= c.minSize
    ensures SolveMax(Some(c), 2 * g) == Some(Geom(0, 0))
    ensures IsSolution(c, Geom(g, 2 * g - 1)) && !FindsLongest(c, 2 * g)
  {
    hide NearestStart, NearestEnd, IsSolution, LastEnd, PoorFirst, SolveMax, FindsLongest;
    PoorSolvable(c, g);
    PoorStart(c, g);
    PoorEnd(c, g);
    OneSector(c, 2 * g);
    PoorSolution(c, g);
    TooShort(c, 2 * g, Geom(g, 2 * g - 1));
  }

  lemma OneSector(c: Constraint, len: int)
    requires c.Solvable() && NearestStart(c, 0) == 0 && NearestEnd(c, 0, len - 1, len) == 0
    ensures SolveMax(Some(c), len) == Some(Geom(0, 0))
  {
    hide NearestStart, NearestEnd;
  }

  lemma TooShort(c: Constraint, len: int, s: Geom)
    requires c.Solvable() && SolveMax(Some(c), len) == Some(Geom(0, 0)) && s.Valid() && IsSolution(c, s) && s.Length() > 1
    ensures !FindsLongest(c, len)
  {
    hide SolveMax, IsSolution;
  }

  predicate PoorFirst(c: Constraint, g: int) {
    g >= 3 && c == Constraint(Some(A.Align(0, g)), Some(A.Align(0, 2 * g - 1)), Geom(0, g), Geom(0, 2 * g - 1), 1, g)
  }

  lemma PoorSolvable(c: Constraint, g: int)
    requires PoorFirst(c, g)
    ensures c.Solvable() && g >= 3 && c.minSize == 1
  {
  }

  lemma PoorStart(c: Constraint, g: int)
    requires PoorFirst(c, g)
    ensures c.Solvable() && LastEnd(c) == 2 * g - 1 && NearestStart(c, 0) == 0
  {
    hide NearestStart, FirstEnd, LastEnd, A.IsAligned;
    MultiplesUpTo(A.Align(0, g));
    MultiplesUpTo(A.Align(0, 2 * g - 1));
    assert Fits(A.Align(0, g), Geom(0, g), 0);
    assert Fits(A.Align(0, 2 * g - 1), Geom(0, 2 * g - 1), 0) && Fits(A.Align(0, 2 * g - 1), Geom(0, 2 * g - 1), 2 * g - 1);
    EndsAre(c, 0, 2 * g - 1);
    StartChosen(c, 0);
  }

  lemma PoorEnd(c: Constraint, g: int)
    requires PoorFirst(c, g) && c.Solvable()
    ensures NearestEnd(c, 0, 2 * g - 1, 2 * g) == 0
  {
    hide NearestEnd, A.IsAligned;
    var b := A.Align(0, 2 * g - 1);
    MultiplesUpTo(b);
    EndFacts(c, 0, 2 * g - 1, 2 * g);
    var range := EndRange(c, 0, 2 * g).value;
    assert Fits(b, Geom(0, 2 * g - 1), 0);
    assert Fits(b, range, 0);
    forall t | Fits(b, range, t) ensures t == 0 { assert Fits(b, Geom(0, 2 * g - 1), t); }
  }

  lemma PoorSolution(c: Constraint, g: int)
    requires PoorFirst(c, g) && c.Solvable()
    ensures IsSolution(c, Geom(g, 2 * g - 1))
  {
    MultiplesUpTo(A.Align(0, g));
    MultiplesUpTo(A.Align(0, 2 * g - 1));
    assert Fits(A.Align(0, g), Geom(0, g), g);
    assert Fits(A.Align(0, 2 * g - 1), Geom(0, 2 * g - 1), 2 * g - 1);
  }
}
