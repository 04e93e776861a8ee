/** Changing an extended partition that holds logical ones, for both kinds of alignment:
    which requests may take the table sector of the first of them
    (libparted/labels/dos.c:1817-1905, 1965-2032, 2180-2226). */
module Requests {
  import opened CInt
  import opened Geometry
  import A = Alignment
  import C = Constraint
  import opened PartList
  import opened Disk
  import opened DiskLayout
  import opened LabelAlign
  import opened DiskOps
  import opened DiskInvariant
  import opened Growing
  import opened Resizing

  // ---- the regions a request can end at ----------------------------------------------------------

  predicate HoldsLogs(d: Disk, g: Geom) {
    forall i :: 0 <= i < |d.logs| ==> g.Encloses(d.logs[i].geom)
  }

  predicate OnDevice(d: Disk, g: Geom) {
    1 <= g.start <= g.end < d.len && Fits32(g)
  }

  /** A region in the free stretch around the start asked for that holds all logical
      partitions and that one of the label's constraints admits. */
  predicate Reachable(d: Disk, e: nat, asked: Geom, g: Geom, env: Env)
    requires Usable(d) && e < |d.prims| && d.prims[e].kind == Extended && env.Valid()
  {
    && OnDevice(d, g) && HoldsLogs(d, g)
    && FreeStretch(d, Extended, e, asked.start).Some? && FreeStretch(d, Extended, e, asked.start).value.Encloses(g)
    && Admitted(d, d.prims[e].(geom := asked), env, g)
  }

  lemma BestAdmitted(d: Disk, p: Part, bios: Bios, c: Option<C.Constraint>, g: Geom)
    requires d.len >= 2 && NonNegative(d.logs) && p.kind == Extended && bios.Valid() && C.ValidOpt(c)
    requires AlignPrimary(d, p, bios, c) == Some(g)
    ensures var min := ExtMinimum(d, p, bios.sectors);
            C.Solves(PrimaryStartConstraint(d.len, p.geom.start, bios, min), g) || C.Solves(PrimaryConstraint(d.len, bios, min), g)
  {
    hide TryConstraint, PrimaryStartConstraint, PrimaryConstraint, ExtMinimum, BestSolution, C.Solves;
    var min := ExtMinimum(d, p, bios.sectors);
    TrySound(p.geom, c, PrimaryStartConstraint(d.len, p.geom.start, bios, min), d.len);
    TrySound(p.geom, c, PrimaryConstraint(d.len, bios, min), d.len);
  }

  /** What the label chooses, one of its constraints admits. */
  lemma ChosenAdmitted(d: Disk, p: Part, c: Option<C.Constraint>, skip: int, env: Env, g: Geom)
    requires Alignable(d, p) && env.Valid() && env.scheme.Msdos? && p.kind == Extended && C.ValidOpt(c)
    requires Align(d, p, c, skip, env) == Some(g)
    ensures Admitted(d, p, env, g)
  {
    hide TryConstraint, PrimaryStartConstraint, PrimaryConstraint, ExtMinimum, AlignPrimary, NoGeomExtended, C.Solves;
    if env.scheme.cylinderAlign && AlignPrimary(d, p, env.probe(p), c).Some? {
      BestAdmitted(d, p, env.probe(p), c, g);
    } else {
      TrySound(p.geom, c, NoGeomExtended(d, p), d.len);
    }
  }

  lemma InStretch(d: Disk, e: nat, start: int, g: Geom)
    requires Overlappable(d, Extended) && g.Valid()
    ensures C.Solves(OverlapConstraint(d, Extended, e, start), g)
            <==> FreeStretch(d, Extended, e, start).Some? && FreeStretch(d, Extended, e, start).value.Encloses(g)
  {
    hide FreeStretch, C.FromMax;
    if FreeStretch(d, Extended, e, start).Some? {
      SomeStretch(d, e, start);
      OverlapIsMax(d, Extended, e, start);
      C.FromMaxMeaning(FreeStretch(d, Extended, e, start).value, g);
    }
  }

  lemma ExtChecks(d: Disk, e: nat, g: Geom, env: Env)
    requires Sound(d, env) && e < |d.prims| && d.prims[e].kind == Extended && g.Valid()
    ensures var p := d.prims[e].(geom := g);
            CheckPartition(SetPart(d, Prim(e), p), p, Some(Prim(e))) <==> g.end < d.len && Fits32(g) && HoldsLogs(d, g)
  {
    hide PrimNums, LogNums, Level, StartsFrom1;
    var p := d.prims[e].(geom := g);
    ExtIs(d.prims, e);
    SetPartExt(d, Prim(e), p);
  }

  /** An accepted change ends at a reachable region. */
  lemma AcceptedReaches(d: Disk, e: nat, c: Option<C.Constraint>, start: int, end: int, env: Env) returns (g: Geom)
    requires Sound(d, env) && env.Valid() && C.ValidOpt(c) && !d.clobber && 0 <= start <= end
    requires Usable(d) && e < |d.prims| && d.prims[e].kind == Extended && Handle(d, Prim(e))
    requires SetGeomCore(d, Prim(e), c, start, end, env).Changed?
    ensures Reachable(d, e, Geom(start, end), g, env)
    ensures SetGeomCore(d, Prim(e), c, start, end, env).disk == RawAdd(RawRemove(d, Prim(e)), d.prims[e].(geom := g))
  {
    hide Sound, SetGeomCore, CheckPartition, OverlapConstraint, RawAdd, RawRemove, Align, Bounds, Admitted, FreeStretch, HoldsLogs;
    g := SetGeomPlace(d, Prim(e), c, start, end, env);
    var p := d.prims[e].(geom := Geom(start, end));
    SetPartExt(d, Prim(e), p);
    ResizeLabel(d, e, env);
    ChosenAdmitted(SetPart(d, Prim(e), p), p, Bounds(d, Prim(e), c, start), e, env, g);
    SameAdmitted(d, SetPart(d, Prim(e), p), p, env, g);
    InStretch(d, e, start, g);
    ExtChecks(d, e, g, env);
  }

  lemma ExactBounds(d: Disk, e: nat, start: int, g: Geom)
    requires Usable(d) && Handle(d, Prim(e)) && d.prims[e].kind == Extended && OnDevice(d, g)
    requires FreeStretch(d, Extended, e, start).Some? && FreeStretch(d, Extended, e, start).value.Encloses(g)
    ensures C.Pinned(Bounds(d, Prim(e), Some(C.Exact(g, d.len)), start), g)
  {
    hide FreeStretch, C.Intersect, C.Exact, C.Pinned, OverlapConstraint, C.FromMax;
    SomeStretch(d, e, start);
    OverlapIsMax(d, Extended, e, start);
    C.FromMaxMeaning(FreeStretch(d, Extended, e, start).value, g);
    MaxMin(FreeStretch(d, Extended, e, start).value);
    C.ExactPinned(g, d.len);
    PinnedSolves(Some(C.Exact(g, d.len)), g);
    C.PinnedIntersect(OverlapConstraint(d, Extended, e, start), Some(C.Exact(g, d.len)), g);
  }

  lemma MaxMin(max: Geom)
    requires max.Valid()
    ensures C.FromMax(max).minSize == 1
  {
  }

  /** Any reachable region is reached by asking for it exactly. */
  lemma ReachableAccepted(d: Disk, e: nat, asked: Geom, g: Geom, env: Env)
    requires Sound(d, env) && env.Valid() && !d.clobber && asked.Valid() && env.scheme.Msdos?
    requires Usable(d) && e < |d.prims| && d.prims[e].kind == Extended && Handle(d, Prim(e))
    requires Reachable(d, e, asked, g, env)
    ensures SetGeomCore(d, Prim(e), Some(C.Exact(g, d.len)), asked.start, asked.end, env)
            == Changed(RawAdd(RawRemove(d, Prim(e)), d.prims[e].(geom := g)))
  {
    hide Sound, CheckPartition, RawAdd, RawRemove, Align, Bounds, Admitted, FreeStretch, HoldsLogs, C.Exact, C.Pinned, Usable;
    var p := d.prims[e].(geom := asked);
    ExactBounds(d, e, asked.start, g);
    var both := Bounds(d, Prim(e), Some(C.Exact(g, d.len)), asked.start);
    PinnedSolves(both, g);
    SetPartExt(d, Prim(e), p);
    UsableFor(d, e, p);
    ExtPinned(SetPart(d, Prim(e), p), p, both, e, env, g);
    SameAdmitted(d, SetPart(d, Prim(e), p), p, env, g);
    ExtChecks(d, e, g, env);
  }

  lemma UsableFor(d: Disk, e: nat, p: Part)
    requires Usable(d) && e < |d.prims| && p.kind == Extended
    ensures Alignable(d, p) && Alignable(SetPart(d, Prim(e), p), p)
  {
  }

  lemma ReachedSound(d: Disk, e: nat, asked: Geom, g: Geom, env: Env)
    requires Sound(d, env) && env.Valid() && Usable(d) && e < |d.prims| && d.prims[e].kind == Extended
    requires Reachable(d, e, asked, g, env)
    ensures Sound(RawAdd(RawRemove(d, Prim(e)), d.prims[e].(geom := g)), env) <==> d.logs == [] || GapBefore(d.logs, g, 0)
  {
    hide Sound, RawAdd, RawRemove, CheckPartition, GapBefore, Level, Apart, Admitted, FreeStretch, HoldsLogs, OverlapConstraint;
    SoundUsable(d, env);
    InStretch(d, e, asked.start, g);
    ResizeApart(d, e, asked.start, g);
    ExtChecks(d, e, g, env);
    LogsInside(d, e, g);
    ExtResult(d, e, g, env);
    ExtResultIs(d, e, g, env);
  }

  // ---- what the label admits, in numbers ------------------------------------------------------------

  predicate CylinderEnd(cyl: int, end: int)
    requires cyl > 0
  {
    (end + 1) % cyl == 0
  }

  lemma EndAligned(cyl: int, end: int)
    requires cyl > 0
    ensures A.Admits(A.Duplicate(A.New(-1, cyl)), end) <==> CylinderEnd(cyl, end)
  {
    hide A.IsAligned;
    C.DuplicateKeepsClass(A.New(-1, cyl), end);
    A.NewKeepsClass(-1, cyl, end);
    AlignedRem(A.Align(-1, cyl), end);
  }

  lemma AlignedRem(a: A.Align, s: int)
    requires a.grain > 0
    ensures A.IsAligned(a, s) <==> (s - a.offset) % a.grain == 0
  {
    RemZero(s - a.offset, a.grain);
  }

  lemma StartAligned(cyl: int, start: int)
    requires cyl > 0
    ensures A.Admits(A.Duplicate(A.New(0, cyl)), start) <==> start % cyl == 0
  {
    hide A.IsAligned;
    C.DuplicateKeepsClass(A.New(0, cyl), start);
    A.NewKeepsClass(0, cyl, start);
    AlignedRem(A.Align(0, cyl), start);
  }

  lemma PointAligned(pos: int, start: int)
    ensures A.Admits(A.Duplicate(A.New(pos, 0)), start) <==> start == pos
  {
  }

  lemma NoGeomIs(d: Disk, p: Part, g: Geom)
    requires d.len >= 2 && NonNegative(d.logs) && p.kind == Extended && Ordered(d.logs) && AllActive(d.logs) && HasFive(d.logs)
    requires g.Valid() && 1 <= g.start && g.end < d.len && HoldsLogs(d, g)
    ensures C.Solves(NoGeomExtended(d, p), g) <==> g.start <= LatestStart(d.logs, 1)
  {
    hide LatestStart, MinExtGeom;
    if g.start <= LatestStart(d.logs, 1) {
      TightAdmitted(d, p, g);
    } else {
      MinExtStart(d, 1);
    }
  }

  /** The minimum region reaches no further than the logical partitions. */
  lemma MinimumIs(d: Disk, p: Part, head: int, g: Geom) returns (min: Geom)
    requires NonNegative(d.logs) && p.kind == Extended && head > 0
    requires Ordered(d.logs) && AllActive(d.logs) && HasFive(d.logs) && HoldsLogs(d, g)
    ensures ExtMinimum(d, p, head) == Some(min) && min.start == LatestStart(d.logs, head) && 0 <= min.end <= g.end
  {
    hide LatestStart;
    ExtMinimumStart(d, p, head);
    min := ExtMinimum(d, p, head).value;
    var k := NumIndex(d.logs, 5);
    MinExtEnds(d.logs, head, Geom(BeforeFive(d.logs, head), d.logs[k].geom.end), g.end);
  }

  lemma PrimaryStartIs(len: int, start: int, bios: Bios, min: Geom, g: Geom)
    requires bios.Valid() && len >= 2 && 0 <= min.end <= g.end < len && 1 <= g.start <= g.end
    ensures bios.CylinderSize() > 0
    ensures C.Solves(PrimaryStartConstraint(len, start, bios, Some(min)), g)
            <==> g.start == StartPos(start, bios) && CylinderEnd(bios.CylinderSize(), g.end)
  {
    hide A.Admits, A.New, A.Duplicate, CylinderEnd;
    CylinderPositive(bios);
    EndAligned(bios.CylinderSize(), g.end);
    PointAligned(StartPos(start, bios), g.start);
  }

  lemma PrimaryIs(len: int, bios: Bios, min: Geom, g: Geom)
    requires bios.Valid() && len >= 2 && 0 <= min.end <= g.end < len && 1 <= g.start <= g.end
    ensures bios.CylinderSize() > 0
    ensures C.Solves(PrimaryConstraint(len, bios, Some(min)), g)
            <==> && g.start % bios.CylinderSize() == 0 && bios.CylinderSize() <= g.start <= min.start
                 && CylinderEnd(bios.CylinderSize(), g.end)
  {
    hide A.Admits, A.New, A.Duplicate, CylinderEnd;
    CylinderPositive(bios);
    EndAligned(bios.CylinderSize(), g.end);
    StartAligned(bios.CylinderSize(), g.start);
  }

  /** The starts that cylinder alignment admits. */
  predicate CylinderStart(s: seq<Part>, asked: int, bios: Bios, start: int)
    requires HasFive(s) && bios.Valid()
  {
    CylinderPositive(bios);
    || start == StartPos(asked, bios)
    || (start % bios.CylinderSize() == 0 && bios.CylinderSize() <= start <= LatestStart(s, bios.sectors))
  }

  lemma AdmittedIs(d: Disk, p: Part, env: Env, g: Geom)
    requires Alignable(d, p) && p.kind == Extended && env.Valid() && Ordered(d.logs) && AllActive(d.logs) && HasFive(d.logs)
    requires 1 <= g.start <= g.end < d.len && HoldsLogs(d, g)
    ensures env.probe(p).CylinderSize() > 0
    ensures Admitted(d, p, env, g) <==>
            || g.start <= LatestStart(d.logs, 1)
            || (&& env.scheme == Msdos(true) && CylinderStart(d.logs, p.geom.start, env.probe(p), g.start)
                && CylinderEnd(env.probe(p).CylinderSize(), g.end))
  {
    hide LatestStart, NoGeomExtended, PrimaryStartConstraint, PrimaryConstraint, ExtMinimum, CylinderEnd, HasFive, HoldsLogs;
    var bios := env.probe(p);
    NoGeomIs(d, p, g);
    var min := MinimumIs(d, p, bios.sectors, g);
    PrimaryStartIs(d.len, p.geom.start, bios, min, g);
    PrimaryIs(d.len, bios, min, g);
  }

  // ---- the guard ---------------------------------------------------------------------------------------

  /** The last end of a cylinder up to `hi`. */
  function LastCylinderEnd(cyl: int, hi: int): int
    requires cyl > 0
  {
    (hi + 1) / cyl * cyl - 1
  }

  lemma LastCylinderEndIs(cyl: int, hi: int)
    requires cyl > 0
    ensures CylinderEnd(cyl, LastCylinderEnd(cyl, hi)) && LastCylinderEnd(cyl, hi) <= hi
    ensures forall end :: CylinderEnd(cyl, end) && end <= hi ==> end <= LastCylinderEnd(cyl, hi)
  {
    var q := (hi + 1) / cyl;
    MulMod(q, cyl);
    DivisionIs(hi + 1, cyl);
    forall end | CylinderEnd(cyl, end) && end <= hi ensures end <= LastCylinderEnd(cyl, hi) {
      DivisionIs(end + 1, cyl);
      if (end + 1) / cyl > q { MulAbove((end + 1) / cyl, q + 1, cyl); A.OneLess(q + 2, cyl); A.OneLess(q + 1, cyl); }
      else { MulAbove(q, (end + 1) / cyl, cyl); }
    }
  }

  lemma MulAbove(a: int, b: int, c: int)
    requires a >= b && c > 0
    ensures a * c >= b * c
  {
  }

  /** How far a region from `start` may reach. */
  function FarthestEnd(d: Disk, free: Geom, start: int): int {
    Min(Min(d.len - 1, free.end), start + UINT32_MAX - 1)
  }

  /** The request can end at a region that starts at `start`. */
  predicate StartReachable(d: Disk, e: nat, asked: Geom, env: Env, start: int)
    requires Usable(d) && e < |d.prims| && d.prims[e].kind == Extended && env.Valid() && HasFive(d.logs)
  {
    var free, bios := FreeStretch(d, Extended, e, asked.start), env.probe(d.prims[e].(geom := asked));
    CylinderPositive(bios);
    && free.Some? && Max(1, free.value.start) <= start <= UINT32_MAX
    && var last, far := d.logs[|d.logs| - 1].geom.end, FarthestEnd(d, free.value, start);
       || (start <= LatestStart(d.logs, 1) && last <= far)
       || (&& env.scheme == Msdos(true) && CylinderStart(d.logs, asked.start, bios, start)
           && last <= LastCylinderEnd(bios.CylinderSize(), far))
  }

  /** What a caller can look up before asking for the region `asked`: the request can end
      neither on the first sector of the first logical partition nor on the sector of
      its table. */
  predicate SafeRequest(d: Disk, e: nat, asked: Geom, env: Env)
    requires Usable(d) && e < |d.prims| && d.prims[e].kind == Extended && env.Valid()
  {
    d.logs == []
    || (&& HasFive(d.logs)
        && !StartReachable(d, e, asked, env, d.logs[0].geom.start)
        && !StartReachable(d, e, asked, env, d.logs[0].geom.start - Not5(d.logs[0].num)))
  }

  lemma HoldsEnds(d: Disk, g: Geom)
    requires Ordered(d.logs) && d.logs != []
    ensures HoldsLogs(d, g) <==> g.start <= d.logs[0].geom.start && d.logs[|d.logs| - 1].geom.end <= g.end
  {
    var s, n := d.logs, |d.logs| - 1;
    assert s[0].geom.Valid() && s[n].geom.Valid();
    forall i | 0 <= i < |s| ensures s[0].geom.start <= s[i].geom.start && s[i].geom.end <= s[n].geom.end {
      assert s[i].geom.Valid();
      if i > 0 { assert s[0].geom.end < s[i].geom.start; }
      if i < n { assert s[i].geom.end < s[n].geom.start; }
    }
  }

  lemma ReachableStarts(d: Disk, e: nat, asked: Geom, g: Geom, env: Env)
    requires Usable(d) && e < |d.prims| && d.prims[e].kind == Extended && env.Valid()
    requires Ordered(d.logs) && AllActive(d.logs) && HasFive(d.logs) && Reachable(d, e, asked, g, env)
    ensures StartReachable(d, e, asked, env, g.start) && g.start <= d.logs[0].geom.start
  {
    hide Admitted, FreeStretch, LatestStart, CylinderStart, HoldsLogs, LastCylinderEnd, CylinderEnd, NumIndex;
    var p := d.prims[e].(geom := asked);
    HoldsEnds(d, g);
    AdmittedIs(d, p, env, g);
    LastCylinderEndIs(env.probe(p).CylinderSize(), FarthestEnd(d, FreeStretch(d, Extended, e, asked.start).value, g.start));
  }

  lemma StartsReachable(d: Disk, e: nat, asked: Geom, env: Env, start: int) returns (g: Geom)
    requires Usable(d) && e < |d.prims| && d.prims[e].kind == Extended && env.Valid()
    requires Ordered(d.logs) && AllActive(d.logs) && HasFive(d.logs)
    requires StartReachable(d, e, asked, env, start) && start <= d.logs[0].geom.start
    ensures g.start == start && Reachable(d, e, asked, g, env)
  {
    hide Admitted, FreeStretch, LatestStart, CylinderStart, HoldsLogs, LastCylinderEnd, CylinderEnd, NumIndex, NonNegative;
    var p, far := d.prims[e].(geom := asked), FarthestEnd(d, FreeStretch(d, Extended, e, asked.start).value, start);
    CylinderPositive(env.probe(p));
    var cyl := env.probe(p).CylinderSize();
    LastCylinderEndIs(cyl, far);
    var last := d.logs[|d.logs| - 1].geom.end;
    g := Geom(start, if start <= LatestStart(d.logs, 1) && last <= far then far else LastCylinderEnd(cyl, far));
    HoldsEnds(d, g);
    EndsBehind(d, start);
    UsableFor(d, e, p);
    AdmittedIs(d, p, env, g);
  }

  lemma EndsBehind(d: Disk, start: int)
    requires Ordered(d.logs) && d.logs != [] && start <= d.logs[0].geom.start
    ensures start <= d.logs[|d.logs| - 1].geom.end
  {
    var s, n := d.logs, |d.logs| - 1;
    assert s[0].geom.Valid() && s[n].geom.Valid();
    if n > 0 { assert s[0].geom.end < s[n].geom.start; }
  }

  /** Whatever the constraint, an accepted change with this request leaves the table sound. */
  ghost predicate EveryConstraintSound(d: Disk, e: nat, asked: Geom, env: Env)
    requires Usable(d) && Handle(d, Prim(e)) && env.Valid() && asked.Valid()
  {
    forall c :: C.ValidOpt(c) && SetGeomCore(d, Prim(e), c, asked.start, asked.end, env).Changed?
      ==> Sound(SetGeomCore(d, Prim(e), c, asked.start, asked.end, env).disk, env)
  }

  /** Under the guard, every accepted change keeps the table sound. */
  lemma RequestKeeps(d: Disk, e: nat, c: Option<C.Constraint>, start: int, end: int, env: Env)
    requires Sound(d, env) && env.Valid() && C.ValidOpt(c) && !d.clobber && 0 <= start <= end
    requires Usable(d) && e < |d.prims| && d.prims[e].kind == Extended && Handle(d, Prim(e))
    requires SafeRequest(d, e, Geom(start, end), env) && SetGeomCore(d, Prim(e), c, start, end, env).Changed?
    ensures Sound(SetGeomCore(d, Prim(e), c, start, end, env).disk, env)
  {
    hide Sound, SetGeomCore, Reachable, StartReachable, RawAdd, RawRemove, Usable, NumIndex;
    var g := AcceptedReaches(d, e, c, start, end, env);
    ReachedSound(d, e, Geom(start, end), g, env);
    if d.logs != [] {
      SoundFive(d, env);
      ReachableStarts(d, e, Geom(start, end), g, env);
    }
  }

  /** With either alignment, and for any request: no constraint lets it spoil the table
      exactly when the guard holds. */
  lemma RequestExactly(d: Disk, e: nat, asked: Geom, env: Env)
    requires Sound(d, env) && env.Valid() && !d.clobber && asked.Valid()
    requires Usable(d) && e < |d.prims| && d.prims[e].kind == Extended && Handle(d, Prim(e))
    ensures EveryConstraintSound(d, e, asked, env) <==> SafeRequest(d, e, asked, env)
  {
    hide Sound, SetGeomCore, StartReachable, Usable, NumIndex;
    if SafeRequest(d, e, asked, env) {
      forall c | C.ValidOpt(c) && SetGeomCore(d, Prim(e), c, asked.start, asked.end, env).Changed?
        ensures Sound(SetGeomCore(d, Prim(e), c, asked.start, asked.end, env).disk, env)
      {
        RequestKeeps(d, e, c, asked.start, asked.end, env);
      }
    } else {
      SoundFive(d, env);
      var f := d.logs[0].geom.start;
      var g := RequestBreaks(d, e, asked, env,
                             if StartReachable(d, e, asked, env, f) then f else f - Not5(d.logs[0].num));
    }
  }

  /** A start that the guard excludes is reached under an exact constraint. */
  lemma RequestBreaks(d: Disk, e: nat, asked: Geom, env: Env, start: int) returns (g: Geom)
    requires Sound(d, env) && env.Valid() && !d.clobber && asked.Valid()
    requires Usable(d) && e < |d.prims| && d.prims[e].kind == Extended && Handle(d, Prim(e))
    requires HasFive(d.logs) && StartReachable(d, e, asked, env, start)
    requires d.logs[0].geom.start - Not5(d.logs[0].num) <= start <= d.logs[0].geom.start
    ensures g.Valid() && d.len > 0
    ensures var r := SetGeomCore(d, Prim(e), Some(C.Exact(g, d.len)), asked.start, asked.end, env);
            r.Changed? && !Sound(r.disk, env)
  {
    hide Sound, SetGeomCore, StartReachable, Usable, Admitted, FreeStretch, HoldsLogs, C.Exact, NumIndex, RawAdd, RawRemove;
    SoundFive(d, env);
    ResizeLabel(d, e, env);
    g := StartsReachable(d, e, asked, env, start);
    ReachableAccepted(d, e, asked, g, env);
    ReachedSound(d, e, asked, g, env);
  }

  /** The simple guard implies this one. */
  lemma SafeImplies(d: Disk, e: nat, asked: Geom, env: Env)
    requires Sound(d, env) && env.Valid() && !d.clobber && asked.Valid()
    requires Usable(d) && e < |d.prims| && d.prims[e].kind == Extended && Handle(d, Prim(e))
    requires SafeResize(d, d.prims[e].(geom := asked), env)
    ensures SafeRequest(d, e, asked, env)
  {
    hide Sound, SetGeomCore, SafeResize, SafeRequest, Usable;
    forall c | C.ValidOpt(c) && SetGeomCore(d, Prim(e), c, asked.start, asked.end, env).Changed?
      ensures Sound(SetGeomCore(d, Prim(e), c, asked.start, asked.end, env).disk, env)
    {
      ResizeKeeps(d, e, c, asked.start, asked.end, env);
    }
    RequestExactly(d, e, asked, env);
  }
}
