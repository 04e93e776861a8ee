/** Alignments (libparted/cs/natmath.c): residue classes, with grain 0 standing
    for a single sector. */
module Alignment {
  import opened CInt
  import opened Geometry

  // ---- rounding ----------------------------------------------------------

  /** `abs_mod`.  For a negative exact multiple of `b` this is `b`, not 0. */
  function AbsMod(a: int, b: int): int
    requires b > 0
  {
    if a < 0 then Rem(a, b) + b else Rem(a, b)
  }

  lemma AbsModMeaning(a: int, b: int)
    requires b > 0
    ensures AbsMod(a, b) == if a < 0 && a % b == 0 then b else a % b
    ensures (a - AbsMod(a, b)) % b == 0
  {
    hide AbsMod;
    AbsModValue(a, b);
    var q, r := a / b, a % b;
    DivisionIs(a, b);
    MulMod(q, b);
    if a < 0 && r == 0 { MulMod(q - 1, b); OneLess(q, b); }
  }

  lemma AbsModValue(a: int, b: int)
    requires b > 0
    ensures AbsMod(a, b) == if a < 0 && a % b == 0 then b else a % b
  {
    hide Rem;
    RemZero(a, b);
  }

  lemma OneLess(q: int, b: int)
    ensures (q - 1) * b == q * b - b
  {
  }

  /** `ped_round_down_to` */
  function RoundDownTo(sector: int, grain: int): int
    requires grain > 0
  {
    sector - AbsMod(sector, grain)
  }

  /** `ped_round_up_to` */
  function RoundUpTo(sector: int, grain: int): int
    requires grain > 0
  {
    if Rem(sector, grain) != 0 then RoundDownTo(sector, grain) + grain else sector
  }

  /** `ped_round_to_nearest` */
  function RoundToNearest(sector: int, grain: int): int
    requires grain > 0
  {
    if Rem(sector, grain) > Quot(grain, 2)
    then RoundUpTo(sector, grain)
    else RoundDownTo(sector, grain)
  }

  predicate GreatestMultipleBelow(r: int, sector: int, grain: int)
    requires grain > 0
  {
    r % grain == 0 && r <= sector < r + grain
  }

  predicate LeastMultipleAbove(r: int, sector: int, grain: int)
    requires grain > 0
  {
    r % grain == 0 && r - grain < sector <= r
  }

  /** Rounding up is right everywhere. */
  lemma RoundUpMeaning(sector: int, grain: int)
    requires grain > 0
    ensures LeastMultipleAbove(RoundUpTo(sector, grain), sector, grain)
  {
    RemZero(sector, grain);
    AbsModMeaning(sector, grain);
    if sector % grain != 0 {
      assert grain % grain == 0 by { MulMod(1, grain); }
      SumMod(grain, RoundDownTo(sector, grain), grain);
    }
  }

  /** Rounding down is right exactly off the negative multiples, where it steps
      one whole grain too far. */
  lemma RoundDownMeaning(sector: int, grain: int)
    requires grain > 0
    ensures GreatestMultipleBelow(RoundDownTo(sector, grain), sector, grain)
            <==> !(sector < 0 && sector % grain == 0)
    ensures sector < 0 && sector % grain == 0 ==> RoundDownTo(sector, grain) == sector - grain
    ensures RoundDownTo(sector, grain) % grain == 0
  {
    AbsModMeaning(sector, grain);
  }

  /** `r` is a multiple of the grain at least distance from `sector`. */
  ghost predicate NearestMultiple(r: int, sector: int, grain: int)
    requires grain > 0
  {
    r % grain == 0 && forall m :: m % grain == 0 ==> Abs(sector - r) <= Abs(sector - m)
  }

  lemma NearestIffHalf(r: int, sector: int, grain: int)
    requires grain > 0 && r % grain == 0
    ensures NearestMultiple(r, sector, grain) <==> 2 * Abs(sector - r) <= grain
  {
    MulMod(1, grain);
    SumMod(grain, r, grain);
    if 2 * Abs(sector - r) <= grain {
      forall m | m % grain == 0 ensures Abs(sector - r) <= Abs(sector - m) {
        if m < r { MultiplesApart(m, r, grain); }
        if r < m { MultiplesApart(r, m, grain); }
      }
    } else {
      var m := if sector > r then r + grain else r - grain;
      assert m % grain == 0;
      RoundNeighbour(r, sector, grain, m);
    }
  }

  lemma RoundNeighbour(r: int, sector: int, grain: int, m: int)
    requires grain > 0 && 2 * Abs(sector - r) > grain
    requires m == if sector > r then r + grain else r - grain
    ensures Abs(sector - m) < Abs(sector - r)
  {
  }

  /** Rounding to nearest is right for every non-negative sector; for a negative
      one it always rounds down, so it is right exactly when the sector is no
      multiple and is no further than half a grain above the multiple below. */
  lemma RoundToNearestExact(sector: int, grain: int)
    requires grain > 0
    ensures NearestMultiple(RoundToNearest(sector, grain), sector, grain)
            <==> sector >= 0 || (sector % grain != 0 && 2 * (sector % grain) <= grain)
  {
    RemZero(sector, grain);
    RoundUpMeaning(sector, grain);
    RoundDownMeaning(sector, grain);
    AbsModMeaning(sector, grain);
    var r := RoundToNearest(sector, grain);
    NearestIffHalf(r, sector, grain);
  }

  // ---- greatest common divisor -------------------------------------------

  /** `ped_greatest_common_divisor` */
  function Gcd(a: int, b: int): (g: int)
    requires a >= 0 && b >= 0
    ensures g >= 0
    decreases if b > a then 1 else 0, b
  {
    if b > a then Gcd(b, a)
    else if b != 0 then Gcd(b, Rem(a, b))
    else a
  }

  datatype Euclid = Euclid(gcd: int, x: int, y: int)

  /** `extended_euclid` */
  function ExtendedEuclid(a: int, b: int): (e: Euclid)
    requires a >= 0 && b >= 0
    ensures a > 0 || b > 0 ==> e.gcd > 0
    decreases b
  {
    if b == 0 then Euclid(a, 1, 0)
    else
      var t := ExtendedEuclid(b, Rem(a, b));
      Euclid(t.gcd, t.y, t.x - Quot(a, b) * t.y)
  }

  /** The coefficients combine the arguments into the result, which divides both. */
  lemma {:induction false} Bezout(a: int, b: int)
    requires a >= 0 && b >= 0 && (a > 0 || b > 0)
    ensures var e := ExtendedEuclid(a, b);
            && e.x * a + e.y * b == e.gcd
            && a % e.gcd == 0 && b % e.gcd == 0
    decreases b
  {
    if b == 0 {
      MulMod(1, a);
    } else {
      hide ExtendedEuclid, Quot, Rem;
      EuclidStep(a, b);
      var q, r := Quot(a, b), Rem(a, b);
      Bezout(b, r);
      var t := ExtendedEuclid(b, r);
      BezoutStep(t.x, t.y, a, b, q, r);
      StepDivides(a, b, q, r, t.gcd);
    }
  }

  lemma EuclidStep(a: int, b: int)
    requires a >= 0 && b > 0
    ensures Rem(a, b) >= 0 && a == b * Quot(a, b) + Rem(a, b) && Rem(a, b) < b
    ensures var t := ExtendedEuclid(b, Rem(a, b));
            ExtendedEuclid(a, b) == Euclid(t.gcd, t.y, t.x - Quot(a, b) * t.y)
  {
  }

  lemma StepDivides(a: int, b: int, q: int, r: int, g: int)
    requires g > 0 && a == b * q + r && b % g == 0 && r % g == 0
    ensures a % g == 0
  {
    ComboMod(q, b, 1, r, g);
    assert q * b + 1 * r == a;
  }

  lemma BezoutStep(x: int, y: int, a: int, b: int, q: int, r: int)
    requires a == b * q + r
    ensures y * a + (x - q * y) * b == x * b + y * r
  {
    assert y * (b * q + r) + (x - q * y) * b == x * b + y * r;
  }

  /** The result is the greatest common divisor: a common divisor, divided by
      every other common divisor. */
  lemma GcdIsGreatest(a: int, b: int, d: int)
    requires a >= 0 && b >= 0 && (a > 0 || b > 0)
    requires d > 0 && a % d == 0 && b % d == 0
    ensures ExtendedEuclid(a, b).gcd % d == 0
  {
    var e := ExtendedEuclid(a, b);
    Bezout(a, b);
    ComboMod(e.x, a, e.y, b, d);
  }

  /** The plain and the extended algorithm agree. */
  lemma {:induction false} GcdAgrees(a: int, b: int)
    requires a >= 0 && b >= 0
    ensures b <= a ==> Gcd(a, b) == ExtendedEuclid(a, b).gcd
    ensures Gcd(a, b) == Gcd(b, a)
    decreases b
  {
    if 0 < b <= a {
      GcdAgrees(b, Rem(a, b));
    }
  }

  /** Bounds on the coefficients: |x| <= b/g and |y| <= a/g. */
  lemma {:induction false} BezoutBound(a: int, b: int)
    requires 0 < b <= a
    ensures var e := ExtendedEuclid(a, b);
            && Abs(e.x) * e.gcd <= b
            && Abs(e.y) * e.gcd <= a
    decreases b
  {
    var e := ExtendedEuclid(a, b);
    var q, r := Quot(a, b), Rem(a, b);
    assert q >= 1;
    var t := ExtendedEuclid(b, r);
    if r == 0 {
      assert e == Euclid(b, 0, 1);
    } else {
      BezoutBound(b, r);
      var g := e.gcd;
      calc {
        Abs(e.y) * g;
      <= { TriangleProduct(t.x, q, t.y, g); }
        Abs(t.x) * g + q * (Abs(t.y) * g);
      <= { MulMono(q, Abs(t.y) * g, b); }
        r + q * b;
        a;
      }
    }
  }

  lemma MulMono(k: int, a: int, b: int)
    requires k >= 0 && a <= b
    ensures k * a <= k * b
  {
  }

  lemma TriangleProduct(x: int, q: int, y: int, g: int)
    requires q >= 0 && g >= 0
    ensures Abs(x - q * y) * g <= Abs(x) * g + q * (Abs(y) * g)
  {
    assert Abs(q * y) == q * Abs(y) by {
      if y >= 0 { MulNonNeg(q, y); } else { MulNonNeg(q, -y); assert q * (-y) == -(q * y); }
    }
    assert Abs(x - q * y) <= Abs(x) + q * Abs(y);
    MulMono(g, Abs(x - q * y), Abs(x) + q * Abs(y));
    assert (Abs(x) + q * Abs(y)) * g == Abs(x) * g + q * (Abs(y) * g);
  }

  // ---- alignments --------------------------------------------------------

  datatype Align = Align(offset: int, grain: int) {
    /** What `ped_alignment_init` accepts. */
    predicate Valid() {
      grain >= 0
    }
  }

  const Any := Align(0, 1)

  /** `ped_alignment_new`: refuses a negative grain, reduces the offset. */
  function New(offset: int, grain: int): (r: Option<Align>)
    ensures r.Some? <==> grain >= 0
    ensures r.Some? ==> r.value.Valid()
  {
    if grain < 0 then None
    else Some(Align(if grain != 0 then AbsMod(offset, grain) else offset, grain))
  }

  /** `ped_alignment_duplicate` */
  function Duplicate(a: Option<Align>): Option<Align>
  {
    if a.None? then None else New(a.value.offset, a.value.grain)
  }

  /** `ped_alignment_is_aligned` without a region. */
  predicate IsAligned(a: Align, sector: int)
    requires a.Valid()
  {
    if a.grain != 0 then Rem(sector - a.offset, a.grain) == 0 else sector == a.offset
  }

  predicate ValidOpt(a: Option<Align>) {
    a.Some? ==> a.value.Valid()
  }

  /** The absent alignment admits no sector. */
  predicate Admits(a: Option<Align>, sector: int)
    requires ValidOpt(a)
  {
    a.Some? && IsAligned(a.value, sector)
  }

  /** The documented meaning: the sectors `offset + X * grain`. */
  lemma AlignedMeaning(a: Align, sector: int)
    requires a.Valid()
    ensures IsAligned(a, sector) <==> exists x: int :: sector == a.offset + x * a.grain
  {
    if a.grain == 0 {
      assert sector == a.offset ==> sector == a.offset + 0 * a.grain;
    } else {
      RemZero(sector - a.offset, a.grain);
      if IsAligned(a, sector) {
        ModZero(sector - a.offset, a.grain);
        var x := (sector - a.offset) / a.grain;
        assert sector == a.offset + x * a.grain;
      }
      if x: int :| sector == a.offset + x * a.grain {
        MulMod(x, a.grain);
      }
    }
  }

  /** Reducing the offset does not change the class. */
  lemma NewKeepsClass(offset: int, grain: int, sector: int)
    requires grain >= 0
    ensures IsAligned(New(offset, grain).value, sector) <==> IsAligned(Align(offset, grain), sector)
  {
    if grain > 0 {
      var o := AbsMod(offset, grain);
      AbsModMeaning(offset, grain);
      RemZero(sector - offset, grain);
      RemZero(sector - o, grain);
      SumMod(offset - o, sector - offset, grain);
    }
  }

  /** `ped_alignment_intersect` */
  function Intersect(a0: Option<Align>, b0: Option<Align>): (r: Option<Align>)
    requires ValidOpt(a0) && ValidOpt(b0)
    ensures ValidOpt(r)
  {
    if a0.None? || b0.None? then None
    else
      var (a, b) := if a0.value.grain < b0.value.grain
                    then (b0.value, a0.value) else (a0.value, b0.value);
      if a.grain == 0 && b.grain == 0 then
        if a.offset == b.offset then Duplicate(Some(a)) else None
      else
        var e := ExtendedEuclid(a.grain, b.grain);
        var delta := Quot(b.offset - a.offset, e.gcd);
        var offset := a.offset + e.x * delta * a.grain;
        if offset != b.offset - e.y * delta * b.grain then None
        else New(offset, Quot(a.grain * b.grain, e.gcd))
  }

  /** A number is a multiple of the least common multiple exactly when it is a
      multiple of both grains. */
  lemma LcmExact(a: int, b: int, n: int)
    requires a >= b > 0
    ensures var l := Quot(a * b, ExtendedEuclid(a, b).gcd);
            l > 0 && (n % l == 0 <==> n % a == 0 && n % b == 0)
  {
    var e := ExtendedEuclid(a, b);
    var g := e.gcd;
    Bezout(a, b);
    ModZero(a, g);
    ModZero(b, g);
    LcmFactored(a / g, b / g, g, e.x, e.y, n);
  }

  lemma LcmFactored(p: int, q: int, g: int, x: int, y: int, n: int)
    requires g > 0 && p > 0 && q > 0
    requires p * g > 0 && q * g > 0
    requires x * (p * g) + y * (q * g) == g
    ensures var l := Quot((p * g) * (q * g), g);
            l > 0 && (n % l == 0 <==> n % (p * g) == 0 && n % (q * g) == 0)
  {
    var l := p * q * g;
    LcmProduct(p, q, g);
    MulMod(l, g);
    if n % l == 0 {
      ModZero(n, l);
      LcmMultiple(n / l, p, q, g);
      MulMod((n / l) * q, p * g);
      MulMod((n / l) * p, q * g);
    }
    if n % (p * g) == 0 && n % (q * g) == 0 {
      ModZero(n, p * g);
      ModZero(n, q * g);
      ComboFactor(x, p, y, q, g);
      UnitFactor(x * p + y * q, g);
      LcmCombine(p, q, g, x, y, n, n / (p * g), n / (q * g));
      MulMod(x * (n / (q * g)) + y * (n / (p * g)), l);
    }
  }

  lemma LcmProduct(p: int, q: int, g: int)
    requires g > 0 && p > 0 && q > 0
    ensures (p * g) * (q * g) == (p * q * g) * g
    ensures p * q * g > 0
  {
  }

  lemma LcmMultiple(k: int, p: int, q: int, g: int)
    ensures k * (p * q * g) == (k * q) * (p * g)
    ensures k * (p * q * g) == (k * p) * (q * g)
  {
  }

  lemma LcmCombine(p: int, q: int, g: int, x: int, y: int, n: int, i: int, j: int)
    requires x * p + y * q == 1
    requires n == i * (p * g) && n == j * (q * g)
    ensures n == (x * j + y * i) * (p * q * g)
  {
    var l := p * q * g;
    calc {
      n;
      (x * p + y * q) * n;
      (x * p) * n + (y * q) * n;
      (x * p) * (j * (q * g)) + (y * q) * (i * (p * g));
      { LcmRegroup(x, p, j, q, g); LcmRegroup(y, q, i, p, g); }
      (x * j) * l + (y * i) * (q * p * g);
      { assert q * p * g == l; }
      (x * j + y * i) * l;
    }
  }

  lemma LcmRegroup(x: int, p: int, j: int, q: int, g: int)
    ensures (x * p) * (j * (q * g)) == (x * j) * (p * q * g)
  {
  }

  /** A sector satisfies the intersection exactly when it satisfies both
      alignments, the absent alignment being the empty class. */
  lemma IntersectExact(a: Option<Align>, b: Option<Align>, sector: int)
    requires ValidOpt(a) && ValidOpt(b)
    ensures Admits(Intersect(a, b), sector) <==> Admits(a, sector) && Admits(b, sector)
  {
    if a.Some? && b.Some? {
      if a.value.grain < b.value.grain {
        IntersectOrdered(b.value, a.value, sector);
      } else {
        IntersectOrdered(a.value, b.value, sector);
      }
    }
  }

  lemma IntersectOrdered(a: Align, b: Align, sector: int)
    requires a.grain >= b.grain >= 0
    ensures Admits(Intersect(Some(a), Some(b)), sector) <==> IsAligned(a, sector) && IsAligned(b, sector)
  {
    if a.grain == 0 {
    } else if b.grain == 0 {
      IntersectPoint(a, b, sector);
    } else {
      IntersectGeneral(a, b, sector);
    }
  }

  lemma IntersectPoint(a: Align, b: Align, sector: int)
    requires a.grain > 0 && b.grain == 0
    ensures Admits(Intersect(Some(a), Some(b)), sector) <==> IsAligned(a, sector) && IsAligned(b, sector)
  {
    assert ExtendedEuclid(a.grain, 0) == Euclid(a.grain, 1, 0);
    var delta := Quot(b.offset - a.offset, a.grain);
    assert 1 * delta * a.grain == a.grain * delta;
    assert 0 * delta * b.grain == 0;
    assert Quot(a.grain * 0, a.grain) == 0;
  }

  /** The Chinese remainder step: the candidate offset lies in both classes
      exactly when the gcd divides the distance of the offsets. */
  lemma CandidateOffset(a: Align, b: Align)
    requires a.grain >= b.grain > 0
    ensures var e := ExtendedEuclid(a.grain, b.grain);
            var delta := Quot(b.offset - a.offset, e.gcd);
            a.offset + e.x * delta * a.grain == b.offset - e.y * delta * b.grain
            <==> (b.offset - a.offset) % e.gcd == 0
  {
    var e := ExtendedEuclid(a.grain, b.grain);
    var delta := Quot(b.offset - a.offset, e.gcd);
    Bezout(a.grain, b.grain);
    RemZero(b.offset - a.offset, e.gcd);
    ScaleBezout(e.x, a.grain, e.y, b.grain, e.gcd, delta);
  }

  lemma ScaleBezout(x: int, a: int, y: int, b: int, g: int, delta: int)
    requires x * a + y * b == g
    ensures x * delta * a + y * delta * b == g * delta
  {
    assert (x * a + y * b) * delta == x * delta * a + y * delta * b;
  }

  lemma IntersectGeneral(a: Align, b: Align, sector: int)
    requires a.grain >= b.grain > 0
    ensures Admits(Intersect(Some(a), Some(b)), sector) <==> IsAligned(a, sector) && IsAligned(b, sector)
  {
    var e := ExtendedEuclid(a.grain, b.grain);
    var delta := Quot(b.offset - a.offset, e.gcd);
    var o := a.offset + e.x * delta * a.grain;
    var l := Quot(a.grain * b.grain, e.gcd);
    Bezout(a.grain, b.grain);
    CandidateOffset(a, b);
    RemZero(sector - a.offset, a.grain);
    RemZero(sector - b.offset, b.grain);
    if o == b.offset - e.y * delta * b.grain {
      LcmExact(a.grain, b.grain, sector - o);
      RemZero(sector - o, l);
      NewKeepsClass(o, l, sector);
      MulMod(e.x * delta, a.grain);
      MulMod(e.y * delta, b.grain);
      SumMod(e.x * delta * a.grain, sector - o, a.grain);
      SumMod(e.y * delta * b.grain, sector - b.offset, b.grain);
    } else if IsAligned(a, sector) && IsAligned(b, sector) {
      var m, n := sector - a.offset, sector - b.offset;
      MultipleOfMultiple(m, a.grain, e.gcd);
      MultipleOfMultiple(n, b.grain, e.gcd);
      ComboMod(1, m, -1, n, e.gcd);
      assert false;
    }
  }

  lemma MultipleOfMultiple(n: int, a: int, g: int)
    requires a > 0 && g > 0 && n % a == 0 && a % g == 0
    ensures n % g == 0
  {
    ComboMod(n / a, a, 0, a, g);
    ModZero(n, a);
  }

  /** Intersecting with a single sector leaves at most a single sector. */
  lemma PointStaysPoint(a: Option<Align>, b: Option<Align>)
    requires ValidOpt(a) && ValidOpt(b) && Intersect(a, b).Some?
    requires a.value.grain == 0 || b.value.grain == 0
    ensures Intersect(a, b).value.grain == 0
  {
  }

  // ---- machine words -----------------------------------------------------

  const INT32_MAX := 0x7fff_ffff
  const INT64_MAX := 0x7fff_ffff_ffff_ffff

  predicate FitsInt64(x: int) {
    -INT64_MAX <= x <= INT64_MAX
  }

  /** With grains up to 2^20 and reduced offsets, every intermediate value of the
      intersection fits a signed 64-bit word, and the arguments handed to the
      `int` parameters of `extended_euclid` are not truncated. */
  lemma IntersectFits(a: Align, b: Align)
    requires 0 < b.grain <= a.grain <= 0x10_0000
    requires 0 <= a.offset <= a.grain && 0 <= b.offset <= b.grain
    ensures a.grain <= INT32_MAX && b.grain <= INT32_MAX
    ensures var e := ExtendedEuclid(a.grain, b.grain);
            var delta := Quot(b.offset - a.offset, e.gcd);
            && FitsInt64(e.x * delta) && FitsInt64(e.y * delta)
            && FitsInt64(e.x * delta * a.grain) && FitsInt64(e.y * delta * b.grain)
            && FitsInt64(a.offset + e.x * delta * a.grain)
            && FitsInt64(b.offset - e.y * delta * b.grain)
            && FitsInt64(a.grain * b.grain)
  {
    var e := ExtendedEuclid(a.grain, b.grain);
    var g := e.gcd;
    var delta := Quot(b.offset - a.offset, g);
    BezoutBound(a.grain, b.grain);
    var m := 0x10_0000;
    assert Abs(e.x) <= m && Abs(e.y) <= m by {
      MulGrows(Abs(e.x), g);
      MulGrows(Abs(e.y), g);
    }
    assert Abs(delta) <= m by { QuotBound(b.offset - a.offset, g); }
    ProductBound(e.x, delta, m, m);
    ProductBound(e.y, delta, m, m);
    ProductBound(e.x * delta, a.grain, m * m, m);
    ProductBound(e.y * delta, b.grain, m * m, m);
    ProductBound(a.grain, b.grain, m, m);
  }

  lemma MulGrows(k: int, d: int)
    requires k >= 0 && d >= 1
    ensures k * d >= k
  {
  }

  lemma QuotBound(n: int, d: int)
    requires d >= 1
    ensures Abs(Quot(n, d)) <= Abs(n)
  {
    var m := Abs(n);
    assert m == d * (m / d) + m % d;
    assert m / d >= 0;
    MulGrows(m / d, d);
  }

  lemma ProductBound(x: int, y: int, a: int, b: int)
    requires Abs(x) <= a && Abs(y) <= b
    ensures Abs(x * y) <= a * b
  {
    hide Abs;
    AbsProduct(x, y);
    ProductGrows(Abs(x), Abs(y), a, b);
  }

  lemma AbsProduct(x: int, y: int)
    ensures Abs(x * y) == Abs(x) * Abs(y)
  {
  }

  lemma ProductGrows(x: nat, y: nat, a: int, b: int)
    requires x <= a && y <= b
    ensures x * y <= a * b
  {
    assert x * y <= a * y;
    assert a * y <= a * b;
  }
}
