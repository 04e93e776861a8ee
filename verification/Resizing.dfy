/** Changing an extended partition that holds logical ones: when the table sector
    of the first of them stays free (libparted/labels/dos.c:1957-2034, 2180-2226). */
module Resizing {
  import opened CInt
  import opened Geometry
  import C = Constraint
  import opened PartList
  import opened Disk
  import opened DiskLayout
  import opened LabelAlign
  import opened DiskOps
  import opened DiskInvariant
  import opened Growing

  // ---- the first sector that the logical partitions leave ------------------------------------

  predicate HasFive(s: seq<Part>) {
    s != [] && NumIndex(s, 5) >= 0
  }

  /** What number 5 alone asks for. */
  function BeforeFive(s: seq<Part>, head: int): int
    requires HasFive(s)
  {
    s[NumIndex(s, 5)].geom.start - Max(head, 2)
  }

  /** The start of `_get_min_extended_part_geom` in terms of the first logical
      partition and of number 5. */
  function LatestStart(s: seq<Part>, head: int): int
    requires HasFive(s)
  {
    if s[0].num != 5 && s[0].geom.start < BeforeFive(s, head) then s[0].geom.start - 2 * head else BeforeFive(s, head)
  }

  lemma {:induction false} MinExtSame(s: seq<Part>, head: int, g: Geom)
    requires forall i :: 0 <= i < |s| ==> s[i].geom.start >= g.start
    ensures MinExtWalk(s, head, g).start == g.start
    decreases |s|
  {
    if s != [] {
      MinExtSame(s[1..], head, if !s[0].kind.Active() || s[0].num == 5 then g else Geom(g.start, Max(s[0].geom.end, g.end)));
    }
  }

  lemma MinExtStart(d: Disk, head: int)
    requires Ordered(d.logs) && AllActive(d.logs) && HasFive(d.logs) && head > 0
    ensures MinExtGeom(d, head).Some? && MinExtGeom(d, head).value.start == LatestStart(d.logs, head)
  {
    var s, f := d.logs, d.logs[0];
    var g := Geom(BeforeFive(s, head), s[NumIndex(s, 5)].geom.end);
    assert forall i :: 0 < i < |s| ==> f.geom.start < s[i].geom.start by { assert f.geom.Valid(); }
    if f.num == 5 {
      MinExtSame(s[1..], head, g);
    } else {
      MinExtSame(s[1..], head, Geom(if f.geom.start < g.start then f.geom.start - 2 * head else g.start, Max(f.geom.end, g.end)));
    }
  }

  lemma SoundFive(d: Disk, env: Env)
    requires Sound(d, env) && d.logs != []
    ensures Ordered(d.logs) && AllActive(d.logs) && HasFive(d.logs)
  {
    SoundUsable(d, env);
    assert NumIn(d.logs, 5);
  }

  /** Whether the loop of `_get_min_extended_part_geom` fails the assertion of
      `ped_geometry_set` on a negative start. */
  predicate WalkAborts(s: seq<Part>, head: int, g: Geom) {
    s != []
    && if !s[0].kind.Active() || s[0].num == 5 then WalkAborts(s[1..], head, g)
       else if s[0].geom.start < g.start
       then s[0].geom.start - 2 * head < 0
            || WalkAborts(s[1..], head, Geom(s[0].geom.start - 2 * head, Max(s[0].geom.end, g.end)))
       else WalkAborts(s[1..], head, Geom(g.start, Max(s[0].geom.end, g.end)))
  }

  /** And so for the whole of it. */
  predicate MinExtAborts(s: seq<Part>, head: int)
    requires HasFive(s)
  {
    BeforeFive(s, head) < 0 || WalkAborts(s, head, Geom(BeforeFive(s, head), s[NumIndex(s, 5)].geom.end))
  }

  lemma {:induction false} WalkPasses(s: seq<Part>, head: int, g: Geom)
    requires forall i :: 0 <= i < |s| ==> s[i].geom.start >= g.start
    ensures !WalkAborts(s, head, g)
    decreases |s|
  {
    if s != [] {
      WalkPasses(s[1..], head, if !s[0].kind.Active() || s[0].num == 5 then g else Geom(g.start, Max(s[0].geom.end, g.end)));
    }
  }

  /** The assertion fails exactly when number 5 has less than a head in front of it, or
      the first logical partition lies before that head and has less than two. */
  lemma MinExtAsserts(d: Disk, head: int)
    requires Ordered(d.logs) && AllActive(d.logs) && HasFive(d.logs) && head > 0
    ensures MinExtAborts(d.logs, head) <==>
            || d.logs[NumIndex(d.logs, 5)].geom.start < Max(head, 2)
            || (d.logs[0].num != 5 && d.logs[0].geom.start < Min(BeforeFive(d.logs, head), 2 * head))
  {
    hide NumIndex;
    var s, f := d.logs, d.logs[0];
    var g := Geom(BeforeFive(s, head), s[NumIndex(s, 5)].geom.end);
    assert forall i :: 0 < i < |s| ==> f.geom.start < s[i].geom.start by { assert f.geom.Valid(); }
    if f.num == 5 {
      WalkPasses(s[1..], head, g);
    } else if f.geom.start < g.start {
      WalkPasses(s[1..], head, Geom(f.geom.start - 2 * head, Max(f.geom.end, g.end)));
    } else {
      WalkPasses(s[1..], head, Geom(g.start, Max(f.geom.end, g.end)));
    }
  }

  /** With heads of one sector, as without cylinder alignment, it never fails on a sound
      table. */
  lemma LatestNonNegative(d: Disk, env: Env)
    requires Sound(d, env) && env.scheme.Msdos? && HasExt(d) && d.logs != []
    ensures HasFive(d.logs) && !MinExtAborts(d.logs, 1)
  {
    hide PrimNums, LogNums, OneExtended, InLimits, NumIndex, WalkAborts;
    SoundFive(d, env);
    MinExtAsserts(d, 1);
    var s, k := d.logs, NumIndex(d.logs, 5);
    assert GapBefore(s, ExtPart(d).geom, 0);
    assert ExtPart(d).geom.start >= 1;
    if k > 0 { assert s[0].geom.Valid() && s[0].geom.end < s[k].geom.start; }
  }

  // ---- where the label may put the start --------------------------------------------------------

  lemma TryStart(geom: Geom, c: Option<C.Constraint>, internal: Option<C.Constraint>, len: int, lo: int, hi: int)
    requires C.ValidOpt(c) && C.ValidOpt(internal)
    requires internal.Some? ==> internal.value.startRange == Geom(lo, hi)
    ensures var r := TryConstraint(geom, c, internal, len); r.Some? ==> lo <= r.value.start <= hi
  {
    hide TryConstraint;
    TrySound(geom, c, internal, len);
  }

  /** The sector that `_primary_start_constraint` insists on. */
  function StartPos(start: int, bios: Bios): int {
    if start == 2048 then 2048 else bios.sectors
  }

  lemma NoGeomStart(d: Disk, p: Part, c: Option<C.Constraint>)
    requires d.len >= 2 && NonNegative(d.logs) && C.ValidOpt(c) && p.kind == Extended
    requires Ordered(d.logs) && AllActive(d.logs) && HasFive(d.logs)
    ensures var r := AlignPrimaryNoGeom(d, p, c); r.Some? ==> r.value.start <= LatestStart(d.logs, 1)
  {
    hide TryConstraint, LatestStart, MinExtGeom;
    MinExtStart(d, 1);
    TryStart(p.geom, c, NoGeomExtended(d, p), d.len, 1, LatestStart(d.logs, 1));
  }

  lemma PrimaryStart(d: Disk, p: Part, bios: Bios, c: Option<C.Constraint>)
    requires d.len >= 2 && NonNegative(d.logs) && C.ValidOpt(c) && p.kind == Extended && bios.Valid()
    requires Ordered(d.logs) && AllActive(d.logs) && HasFive(d.logs)
    ensures var r := AlignPrimary(d, p, bios, c);
            r.Some? ==> r.value.start == StartPos(p.geom.start, bios) || r.value.start <= LatestStart(d.logs, bios.sectors)
  {
    hide TryConstraint, LatestStart, MinExtGeom, BestSolution, PrimaryConstraint, PrimaryStartConstraint, ExtMinimum;
    var min, pos := ExtMinimum(d, p, bios.sectors), StartPos(p.geom.start, bios);
    assert min.Some? && min.value.start == LatestStart(d.logs, bios.sectors) by { ExtMinimumStart(d, p, bios.sectors); }
    StartRanges(d.len, p.geom.start, bios, min.value);
    TryStart(p.geom, c, PrimaryStartConstraint(d.len, p.geom.start, bios, min), d.len, pos, pos);
    TryStart(p.geom, c, PrimaryConstraint(d.len, bios, min), d.len, bios.CylinderSize(), min.value.start);
  }

  lemma ExtMinimumStart(d: Disk, p: Part, head: int)
    requires NonNegative(d.logs) && p.kind == Extended && head > 0
    requires Ordered(d.logs) && AllActive(d.logs) && HasFive(d.logs)
    ensures ExtMinimum(d, p, head).Some? && ExtMinimum(d, p, head).value.start == LatestStart(d.logs, head)
  {
    hide LatestStart;
    MinExtStart(d, head);
  }

  lemma StartRanges(len: int, start: int, bios: Bios, min: Geom)
    requires bios.Valid() && len >= 2 && 0 <= min.end
    ensures var c := PrimaryStartConstraint(len, start, bios, Some(min));
            c.Some? ==> c.value.startRange == Geom(StartPos(start, bios), StartPos(start, bios))
    ensures var c := PrimaryConstraint(len, bios, Some(min));
            c.Some? ==> c.value.startRange == Geom(bios.CylinderSize(), min.start)
  {
  }

  // ---- the guard ----------------------------------------------------------------------------------

  /** The first logical partition keeps its distance from every start the label may
      choose: it is number 5 itself, or it is counted as lying before the two
      sectors in front of number 5, or clear behind them. */
  predicate SafeStart(s: seq<Part>, head: int)
    requires HasFive(s)
  {
    s[0].num == 5 || s[0].geom.start < BeforeFive(s, head) || s[0].geom.start >= BeforeFive(s, head) + 2
  }

  /** The fixed start of cylinder alignment leaves that distance too, or lies behind
      the first logical partition and is refused. */
  predicate SafePos(s: seq<Part>, pos: int)
    requires s != []
  {
    pos > s[0].geom.start || pos + 1 + Not5(s[0].num) <= s[0].geom.start
  }

  /** What a caller can look up before changing the extended partition `p`, whose new
      region has been filled in. */
  predicate SafeResize(d: Disk, p: Part, env: Env) {
    d.logs == []
    || (&& HasFive(d.logs) && SafeStart(d.logs, 1)
        && (env.scheme == Msdos(true) ==>
              SafeStart(d.logs, env.probe(p).sectors) && SafePos(d.logs, StartPos(p.geom.start, env.probe(p)))))
  }

  lemma SafeGap(s: seq<Part>, head: int, g: Geom)
    requires HasFive(s) && AllActive(s) && head > 0 && SafeStart(s, head) && g.start <= LatestStart(s, head)
    ensures GapBefore(s, g, 0)
  {
  }

  lemma SafeAlign(d: Disk, p: Part, c: Option<C.Constraint>, skip: int, env: Env, g: Geom)
    requires Alignable(d, p) && C.ValidOpt(c) && env.Valid() && env.scheme.Msdos? && p.kind == Extended
    requires d.logs != [] && Ordered(d.logs) && AllActive(d.logs) && SafeResize(d, p, env)
    requires Align(d, p, c, skip, env) == Some(g) && g.Encloses(d.logs[0].geom)
    ensures GapBefore(d.logs, g, 0)
  {
    hide AlignPrimary, AlignPrimaryNoGeom, LatestStart, SafeStart, TryConstraint;
    NoGeomStart(d, p, c);
    if g.start <= LatestStart(d.logs, 1) {
      SafeGap(d.logs, 1, g);
    } else {
      PrimaryStart(d, p, env.probe(p), c);
      if g.start <= LatestStart(d.logs, env.probe(p).sectors) { SafeGap(d.logs, env.probe(p).sectors, g); }
    }
  }

  /** Under the guard, every accepted change of the extended partition keeps the
      table sound. */
  lemma ResizeKeeps(d: Disk, e: nat, c: Option<C.Constraint>, start: int, end: int, env: Env)
    requires Sound(d, env) && env.Valid() && C.ValidOpt(c) && !d.clobber && 0 <= start <= end
    requires Usable(d) && e < |d.prims| && d.prims[e].kind == Extended && Handle(d, Prim(e))
    requires SetGeomCore(d, Prim(e), c, start, end, env).Changed?
    requires SafeResize(d, d.prims[e].(geom := Geom(start, end)), env)
    ensures Sound(SetGeomCore(d, Prim(e), c, start, end, env).disk, env)
  {
    hide SetGeomCore, Sound, CheckPartition, OverlapConstraint, RawAdd, RawRemove, GapBefore, Apart, Handle, Usable, PlaceFor,
         Bounds, SafeResize, Level;
    var g := SetGeomPlace(d, Prim(e), c, start, end, env);
    SoundUsable(d, env);
    ResizeApart(d, e, start, g);
    LogsInside(d, e, g);
    ExtResult(d, e, g, env);
    ExtResultIs(d, e, g, env);
    if d.logs != [] { ResizeGap(d, e, Bounds(d, Prim(e), c, start), Geom(start, end), env, g); }
  }

  lemma ResizeApart(d: Disk, e: nat, start: int, g: Geom)
    requires Laid(d) && Overlappable(d, Extended) && g.Valid() && C.Solves(OverlapConstraint(d, Extended, e, start), g)
    ensures forall j :: 0 <= j < |d.prims| && j != e ==> Apart(d.prims[j].geom, g)
  {
    hide OverlapConstraint, Level, OneExtended, Apart;
    forall j | 0 <= j < |d.prims| && j != e ensures Apart(d.prims[j].geom, g) { OverlapApart(d, Extended, e, start, g, j); }
  }

  lemma ResizeGap(d: Disk, e: nat, both: Option<C.Constraint>, asked: Geom, env: Env, g: Geom)
    requires Sound(d, env) && env.Valid() && C.ValidOpt(both) && !d.clobber && asked.Valid()
    requires Usable(d) && e < |d.prims| && d.prims[e].kind == Extended && Handle(d, Prim(e)) && d.logs != []
    requires PlaceFor(d, Prim(e), both, asked, env) == Some(g) && Level(d.logs, g.start, g.end, true)
    requires SafeResize(d, d.prims[e].(geom := asked), env)
    ensures GapBefore(d.logs, g, 0)
  {
    hide Align, GapBefore, SafeResize, LogNums, PrimNums, OneExtended;
    var p := d.prims[e].(geom := asked);
    SetPartExt(d, Prim(e), p);
    SoundFive(d, env);
    ResizeLabel(d, e, env);
    SafeResizeSame(d, SetPart(d, Prim(e), p), p, env);
    SafeAlign(SetPart(d, Prim(e), p), p, both, e, env, g);
  }

  lemma SafeResizeSame(d: Disk, d1: Disk, p: Part, env: Env)
    requires d.logs == d1.logs
    ensures SafeResize(d, p, env) == SafeResize(d1, p, env)
  {
  }

  lemma ResizeLabel(d: Disk, e: nat, env: Env)
    requires Sound(d, env) && e < |d.prims| && d.prims[e].kind == Extended
    ensures env.scheme.Msdos?
  {
  }

  // ---- the guard is needed -------------------------------------------------------------------------

  /** From the two sectors in front of number 5 to the old end. */
  function TightRegion(d: Disk): Geom
    requires HasExt(d) && HasFive(d.logs)
  {
    Geom(BeforeFive(d.logs, 1), ExtPart(d).geom.end)
  }

  lemma TightFacts(d: Disk, e: nat, env: Env)
    requires Sound(d, env) && env.scheme.Msdos? && e < |d.prims| && d.prims[e].kind == Extended
    requires HasFive(d.logs) && !SafeStart(d.logs, 1)
    ensures HasExt(d) && e == ExtIndex(d.prims)
    ensures var g, f := TightRegion(d), d.logs[0];
            && d.prims[e].geom.Encloses(g) && g.Valid() && 2 <= g.start <= f.geom.start <= g.start + 1 && f.num != 5
            && g.start <= UINT32_MAX && !GapBefore(d.logs, g, 0)
  {
    hide PrimNums, LogNums, OneExtended, StartsFrom1;
    ExtIs(d.prims, e);
    var s, k := d.logs, NumIndex(d.logs, 5);
    assert d.prims[e].geom.start >= 1 by { ExtFrom1(d, e, env); }
    assert GapBefore(s, ExtPart(d).geom, 0);
    assert s[0].geom.Valid() && s[k].geom.Valid() && s[k].geom.end <= ExtPart(d).geom.end;
    assert s[0].geom.end < s[k].geom.start;
  }

  lemma ExtFrom1(d: Disk, e: nat, env: Env)
    requires Sound(d, env) && e < |d.prims|
    ensures d.prims[e].geom.start >= 1 && d.prims[e].geom.Valid() && d.prims[e].geom.end < d.len && Fits32(d.prims[e].geom)
  {
  }

  lemma TightEncloses(d: Disk, env: Env, g: Geom)
    requires Sound(d, env) && HasExt(d) && d.logs != [] && g.end == ExtPart(d).geom.end && g.start <= d.logs[0].geom.start
    ensures forall i :: 0 <= i < |d.logs| ==> g.Encloses(d.logs[i].geom)
  {
    hide PrimNums, LogNums, OneExtended, InLimits, StartsFrom1;
    var s := d.logs;
    assert s[0].geom.Valid();
    forall i | 0 <= i < |s| ensures g.Encloses(s[i].geom) {
      if i > 0 { assert s[0].geom.end < s[i].geom.start; }
    }
  }

  /** The minimum of the label ends with the last logical partition. */
  lemma {:induction false} MinExtEnds(s: seq<Part>, head: int, g: Geom, hi: int)
    requires g.end <= hi && forall i :: 0 <= i < |s| ==> s[i].geom.end <= hi
    ensures MinExtWalk(s, head, g).end <= hi
    decreases |s|
  {
    if s != [] {
      var start := if s[0].geom.start < g.start then s[0].geom.start - 2 * head else g.start;
      MinExtEnds(s[1..], head, if !s[0].kind.Active() || s[0].num == 5 then g else Geom(start, Max(s[0].geom.end, g.end)), hi);
    }
  }

  /** The label's own constraint admits the tight region. */
  lemma TightAdmitted(d: Disk, p: Part, g: Geom)
    requires d.len >= 2 && NonNegative(d.logs) && p.kind == Extended && Ordered(d.logs) && AllActive(d.logs) && HasFive(d.logs)
    requires g.Valid() && 1 <= g.start <= LatestStart(d.logs, 1) && g.end < d.len
    requires forall i :: 0 <= i < |d.logs| ==> g.Encloses(d.logs[i].geom)
    ensures var c := NoGeomExtended(d, p); C.Solves(c, g) && c.value.minSize == 1
  {
    hide LatestStart;
    MinExtStart(d, 1);
    var k := NumIndex(d.logs, 5);
    MinExtEnds(d.logs, 1, Geom(BeforeFive(d.logs, 1), d.logs[k].geom.end), g.end);
    C.AnyAdmits(g.start);
    C.AnyAdmits(g.end);
  }

  /** One of the label's constraints for an extended partition admits the region. */
  predicate Admitted(d: Disk, p: Part, env: Env, g: Geom)
    requires Alignable(d, p) && p.kind == Extended && env.Valid()
  {
    var bios := env.probe(p);
    var min := ExtMinimum(d, p, bios.sectors);
    || C.Solves(NoGeomExtended(d, p), g)
    || (env.scheme == Msdos(true) && (|| C.Solves(PrimaryStartConstraint(d.len, p.geom.start, bios, min), g)
                                      || C.Solves(PrimaryConstraint(d.len, bios, min), g)))
  }

  lemma PinnedTry(geom: Geom, c: Option<C.Constraint>, internal: Option<C.Constraint>, g: Geom, len: int)
    requires C.Pinned(c, g) && C.ValidOpt(internal) && g.Valid() && 0 < g.end < len && (internal.Some? ==> internal.value.minSize == 1)
    ensures var r := TryConstraint(geom, c, internal, len);
            if C.Solves(internal, g) then r == Some(g) else r.None?
  {
    hide C.Pinned;
    PinnedSolves(c, g);
    if C.Solves(internal, g) {
      C.PinnedIntersect(c, internal, g);
      C.PinnedSolved(C.Intersect(c, internal), g, geom, len);
    } else {
      TrySound(geom, c, internal, len);
      PinnedNone(TryConstraint(geom, c, internal, len), c, internal, g, len);
    }
  }

  lemma PinnedNone(r: Option<Geom>, c: Option<C.Constraint>, internal: Option<C.Constraint>, g: Geom, len: int)
    requires C.Pinned(c, g) && C.ValidOpt(internal) && Satisfies(r, c, len) && Satisfies(r, internal, len) && !C.Solves(internal, g)
    ensures r.None?
  {
    if r.Some? { C.PinnedOnly(c, g, r.value); }
  }

  lemma LabelMins(d: Disk, p: Part, bios: Bios, min: Option<Geom>)
    requires d.len >= 2 && NonNegative(d.logs) && p.kind == Extended && bios.Valid() && (min.Some? ==> 0 <= min.value.end)
    ensures var c := NoGeomExtended(d, p); c.Some? ==> c.value.minSize == 1
    ensures var c := PrimaryStartConstraint(d.len, p.geom.start, bios, min); c.Some? ==> c.value.minSize == 1
    ensures var c := PrimaryConstraint(d.len, bios, min); c.Some? ==> c.value.minSize == 1
  {
  }

  lemma PrimaryPinned(d: Disk, p: Part, bios: Bios, c: Option<C.Constraint>, g: Geom)
    requires d.len >= 2 && NonNegative(d.logs) && p.kind == Extended && bios.Valid()
    requires C.Pinned(c, g) && g.Valid() && 1 <= g.start && g.end < d.len
    ensures C.ValidOpt(c)
    ensures var min := ExtMinimum(d, p, bios.sectors);
            if C.Solves(PrimaryStartConstraint(d.len, p.geom.start, bios, min), g) || C.Solves(PrimaryConstraint(d.len, bios, min), g)
            then AlignPrimary(d, p, bios, c) == Some(g) else AlignPrimary(d, p, bios, c).None?
  {
    hide TryConstraint, PrimaryStartConstraint, PrimaryConstraint, ExtMinimum, C.Pinned;
    PinnedSolves(c, g);
    var min := ExtMinimum(d, p, bios.sectors);
    LabelMins(d, p, bios, min);
    PinnedTry(p.geom, c, PrimaryStartConstraint(d.len, p.geom.start, bios, min), g, d.len);
    PinnedTry(p.geom, c, PrimaryConstraint(d.len, bios, min), g, d.len);
  }

  /** Asked for exactly one region, the label agrees exactly when it admits it. */
  lemma ExtPinned(d: Disk, p: Part, c: Option<C.Constraint>, skip: int, env: Env, g: Geom)
    requires Alignable(d, p) && env.Valid() && env.scheme.Msdos? && p.kind == Extended
    requires C.Pinned(c, g) && g.Valid() && 1 <= g.start && g.end < d.len
    ensures C.ValidOpt(c)
    ensures Align(d, p, c, skip, env) == if Admitted(d, p, env, g) then Some(g) else None
  {
    hide AlignPrimary, C.Pinned, NoGeomExtended, TryConstraint, PrimaryStartConstraint, PrimaryConstraint, ExtMinimum;
    PinnedSolves(c, g);
    LabelMins(d, p, env.probe(p), None);
    PrimaryPinned(d, p, env.probe(p), c, g);
    PinnedTry(p.geom, c, NoGeomExtended(d, p), g, d.len);
  }

  lemma TightOverlap(d: Disk, e: nat, g: Geom, env: Env)
    requires Sound(d, env) && e < |d.prims| && d.prims[e].kind == Extended && Handle(d, Prim(e)) && Usable(d)
    requires g.Valid() && d.prims[e].geom.Encloses(g)
    ensures C.Pinned(Bounds(d, Prim(e), Some(C.Exact(g, d.len)), g.start), g)
  {
    hide FreeStretch, C.Intersect, C.Exact, C.Pinned, OverlapConstraint, PrimNums, LogNums, Level, OneExtended, InLimits;
    WidestOrdered(d, Prim(e), env);
    StretchAround(d, Prim(e), g.start);
    SomeStretch(d, e, g.start);
    OverlapIsMax(d, Extended, e, g.start);
    C.FromMaxMeaning(FreeStretch(d, Extended, e, g.start).value, g);
    C.ExactPinned(g, d.len);
    PinnedSolves(Some(C.Exact(g, d.len)), g);
    C.PinnedIntersect(OverlapConstraint(d, Extended, e, g.start), Some(C.Exact(g, d.len)), g);
  }

  lemma SomeStretch(d: Disk, e: nat, start: int)
    requires Overlappable(d, Extended) && FreeStretch(d, Extended, e, start).Some?
    ensures OverlapConstraint(d, Extended, e, start).Some?
  {
  }

  lemma TightChecks(d: Disk, e: nat, g: Geom, env: Env)
    requires Sound(d, env) && e < |d.prims| && d.prims[e].kind == Extended
    requires g.Valid() && d.prims[e].geom.Encloses(g)
    ensures var p := d.prims[e].(geom := g);
            CheckPartition(SetPart(d, Prim(e), p), p, Some(Prim(e)))
            <==> g.start <= UINT32_MAX && forall i :: 0 <= i < |d.logs| ==> g.Encloses(d.logs[i].geom)
  {
    hide PrimNums, LogNums, Level, StartsFrom1;
    var p := d.prims[e].(geom := g);
    ExtIs(d.prims, e);
    SetPartExt(d, Prim(e), p);
    ExtFrom1(d, e, env);
  }

  lemma ExactPlace(d: Disk, e: nat, env: Env, g: Geom)
    requires Sound(d, env) && env.Valid() && !d.clobber && env.scheme.Msdos? && Usable(d)
    requires e < |d.prims| && d.prims[e].kind == Extended && Handle(d, Prim(e))
    requires g.Valid() && d.prims[e].geom.Encloses(g)
    ensures var both, p := Bounds(d, Prim(e), Some(C.Exact(g, d.len)), g.start), d.prims[e].(geom := g);
            both.Some? && PlaceFor(d, Prim(e), both, g, env) == if Admitted(d, p, env, g) then Some(g) else None
  {
    hide Sound, Align, Bounds, C.Exact, C.Pinned, Admitted;
    ExtFrom1(d, e, env);
    TightOverlap(d, e, g, env);
    var both, p := Bounds(d, Prim(e), Some(C.Exact(g, d.len)), g.start), d.prims[e].(geom := g);
    PinnedSolves(both, g);
    SetPartExt(d, Prim(e), p);
    ExtPinned(SetPart(d, Prim(e), p), p, both, e, env, g);
    SameAdmitted(d, SetPart(d, Prim(e), p), p, env, g);
  }

  lemma SameAdmitted(d: Disk, d1: Disk, p: Part, env: Env, g: Geom)
    requires Alignable(d, p) && Alignable(d1, p) && p.kind == Extended && env.Valid() && d.logs == d1.logs && d.len == d1.len
    ensures Admitted(d, p, env, g) == Admitted(d1, p, env, g)
  {
    hide PrimaryStartConstraint, PrimaryConstraint, NoGeomExtended, ExtMinimum, C.Solves;
    SameMinimum(d, d1, p, env.probe(p).sectors);
    SameMinimum(d, d1, p, 1);
    SameNoGeom(d, d1, p);
  }

  lemma SameMinimum(d: Disk, d1: Disk, p: Part, head: int)
    requires NonNegative(d.logs) && d.logs == d1.logs
    ensures ExtMinimum(d, p, head) == ExtMinimum(d1, p, head)
  {
  }

  lemma SameNoGeom(d: Disk, d1: Disk, p: Part)
    requires d.len >= 2 && NonNegative(d.logs) && p.kind == Extended && d.logs == d1.logs && d.len == d1.len
    ensures NoGeomExtended(d, p) == NoGeomExtended(d1, p)
  {
    hide ExtMinimum;
    SameMinimum(d, d1, p, 1);
  }

  lemma TightEnd(d: Disk, e: nat, env: Env)
    requires Sound(d, env) && HasExt(d) && e == ExtIndex(d.prims) && HasFive(d.logs) && !SafeStart(d.logs, 1)
    ensures TightRegion(d).end == ExtPart(d).geom.end && TightRegion(d).start == LatestStart(d.logs, 1)
  {
  }

  lemma SetGeomIs(d: Disk, e: nat, g: Geom, env: Env)
    requires Usable(d) && Handle(d, Prim(e)) && env.Valid() && g.Valid() && g.end < d.len
    requires Bounds(d, Prim(e), Some(C.Exact(g, d.len)), g.start).Some?
    requires var place := PlaceFor(d, Prim(e), Bounds(d, Prim(e), Some(C.Exact(g, d.len)), g.start), g, env);
             place.Some? ==> place.value == g
    ensures var p, r := d.prims[e].(geom := g), SetGeomCore(d, Prim(e), Some(C.Exact(g, d.len)), g.start, g.end, env);
            var place := PlaceFor(d, Prim(e), Bounds(d, Prim(e), Some(C.Exact(g, d.len)), g.start), g, env);
            && (r.Changed? <==> place.Some? && CheckPartition(SetPart(d, Prim(e), p), p, Some(Prim(e))))
            && (r.Changed? ==> r.disk == RawAdd(RawRemove(d, Prim(e)), p))
  {
    hide PlaceFor, Bounds, C.Exact, CheckPartition, RawAdd, RawRemove;
  }

  lemma StillApart(d: Disk, e: nat, g: Geom)
    requires Laid(d) && e < |d.prims| && g.Valid() && d.prims[e].geom.Encloses(g)
    ensures forall j :: 0 <= j < |d.prims| && j != e ==> Apart(d.prims[j].geom, g)
  {
    hide OneExtended;
    forall j | 0 <= j < |d.prims| && j != e ensures Apart(d.prims[j].geom, g) {
      if j < e { assert d.prims[j].geom.end < d.prims[e].geom.start; } else { assert d.prims[e].geom.end < d.prims[j].geom.start; }
    }
  }

  lemma ShrunkSound(d: Disk, e: nat, g: Geom, env: Env)
    requires Sound(d, env) && e < |d.prims| && d.prims[e].kind == Extended
    requires g.Valid() && d.prims[e].geom.Encloses(g)
    requires CheckPartition(SetPart(d, Prim(e), d.prims[e].(geom := g)), d.prims[e].(geom := g), Some(Prim(e)))
    ensures Sound(RawAdd(RawRemove(d, Prim(e)), d.prims[e].(geom := g)), env) <==> d.logs == [] || GapBefore(d.logs, g, 0)
  {
    hide Sound, RawAdd, RawRemove, CheckPartition, GapBefore, Level, Apart;
    SoundUsable(d, env);
    ExtFrom1(d, e, env);
    StillApart(d, e, g);
    LogsInside(d, e, g);
    CheckLimits(SetPart(d, Prim(e), d.prims[e].(geom := g)), d.prims[e].(geom := g), Some(Prim(e)));
    ExtResult(d, e, g, env);
    ExtResultIs(d, e, g, env);
  }

  /** Shrinking to exactly the region asked for: accepted exactly when the label admits
      the region and it holds all logical partitions, and then sound exactly when
      the region leaves the table sector of the first one. */
  lemma ShrinkExactly(d: Disk, e: nat, g: Geom, env: Env)
    requires Sound(d, env) && env.Valid() && !d.clobber && env.scheme.Msdos? && Usable(d)
    requires e < |d.prims| && d.prims[e].kind == Extended && Handle(d, Prim(e))
    requires g.Valid() && d.prims[e].geom.Encloses(g)
    ensures var r := SetGeomCore(d, Prim(e), Some(C.Exact(g, d.len)), g.start, g.end, env);
            && (r.Changed? <==> && Admitted(d, d.prims[e].(geom := g), env, g) && g.start <= UINT32_MAX
                                && forall i :: 0 <= i < |d.logs| ==> g.Encloses(d.logs[i].geom))
            && (r.Changed? ==> (Sound(r.disk, env) <==> d.logs == [] || GapBefore(d.logs, g, 0)))
  {
    hide Sound, PlaceFor, Bounds, C.Exact, CheckPartition, RawAdd, RawRemove, SetGeomCore, GapBefore, Admitted, Usable;
    ExactPlace(d, e, env, g);
    ExtFrom1(d, e, env);
    SetGeomIs(d, e, g, env);
    TightChecks(d, e, g, env);
    if SetGeomCore(d, Prim(e), Some(C.Exact(g, d.len)), g.start, g.end, env).Changed? { ShrunkSound(d, e, g, env); }
  }

  /** Where the guard fails, the label accepts a region that takes the table sector of
      the first logical partition. */
  lemma ResizeBreaks(d: Disk, e: nat, env: Env)
    requires Sound(d, env) && env.Valid() && !d.clobber && env.scheme.Msdos? && Usable(d)
    requires e < |d.prims| && d.prims[e].kind == Extended && Handle(d, Prim(e))
    requires HasFive(d.logs) && !SafeStart(d.logs, 1)
    ensures HasExt(d) && TightRegion(d).Valid()
    ensures var g := TightRegion(d);
            var r := SetGeomCore(d, Prim(e), Some(C.Exact(g, d.len)), g.start, g.end, env);
            r.Changed? && !Sound(r.disk, env)
  {
    hide Sound, C.Exact, TightRegion, SafeStart, SetGeomCore, Admitted, NoGeomExtended, GapBefore, Usable, LatestStart;
    TightFacts(d, e, env);
    var g := TightRegion(d);
    TightEnd(d, e, env);
    ExtFrom1(d, e, env);
    SoundFive(d, env);
    SoundUsable(d, env);
    TightEncloses(d, env, g);
    TightAdmitted(d, d.prims[e].(geom := g), g);
    assert Admitted(d, d.prims[e].(geom := g), env, g) by { AdmittedNoGeom(d, d.prims[e].(geom := g), env, g); }
    ShrinkExactly(d, e, g, env);
  }

  lemma AdmittedNoGeom(d: Disk, p: Part, env: Env, g: Geom)
    requires Alignable(d, p) && p.kind == Extended && env.Valid() && C.Solves(NoGeomExtended(d, p), g)
    ensures Admitted(d, p, env, g)
  {
  }

  ghost predicate EveryResizeSound(d: Disk, e: nat, env: Env)
    requires Usable(d) && Handle(d, Prim(e)) && env.Valid()
  {
    forall c, start, end :: C.ValidOpt(c) && 0 <= start <= end && SetGeomCore(d, Prim(e), c, start, end, env).Changed?
      ==> Sound(SetGeomCore(d, Prim(e), c, start, end, env).disk, env)
  }

  /** Without cylinder alignment, no accepted change of the extended partition spoils
      the table exactly when the guard holds. */
  lemma ResizeExactly(d: Disk, e: nat, env: Env)
    requires Sound(d, env) && env.Valid() && !d.clobber && env.scheme == Msdos(false) && Usable(d)
    requires e < |d.prims| && d.prims[e].kind == Extended && Handle(d, Prim(e))
    ensures EveryResizeSound(d, e, env) <==> d.logs == [] || (HasFive(d.logs) && SafeStart(d.logs, 1))
  {
    hide Sound, SetGeomCore, Usable, SafeStart, NumIndex;
    if d.logs != [] { SoundFive(d, env); }
    if d.logs == [] || SafeStart(d.logs, 1) {
      forall c, start, end | C.ValidOpt(c) && 0 <= start <= end && SetGeomCore(d, Prim(e), c, start, end, env).Changed?
        ensures Sound(SetGeomCore(d, Prim(e), c, start, end, env).disk, env)
      {
        ResizeKeeps(d, e, c, start, end, env);
      }
    } else {
      ResizeBreaks(d, e, env);
    }
  }
}
