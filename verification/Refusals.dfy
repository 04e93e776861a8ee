/** Refused changes as they are called, outside update mode: what each kind of refusal
    leaves of the tiling, and calls that lose it or end the program. */
module Refusals {
  import opened Geometry
  import A = Alignment
  import C = Constraint
  import opened PartList
  import opened Disk
  import opened DiskLayout
  import opened Tiling
  import opened LabelAlign
  import opened DiskOps
  import opened DiskInvariant
  import opened Growing
  import opened Refused
  import opened Aborting
  import opened Runs

  // ---- a primary partition --------------------------------------------------------------------------

  /** A change of a primary partition refused on either label: without a common solution
      it leaves a complete table; otherwise exactly when the region left behind was taken
      for the old one. */
  lemma PrimaryRefusal(d: Disk, core: Disk, k: nat, c: Option<C.Constraint>, start: int, end: int, env: Env)
    requires Good(d, core, env) && env.Valid() && 0 <= start <= end && C.ValidOpt(c)
    requires k < |core.prims| && core.prims[k].kind == Normal
    requires SetGeomCore(core, Prim(k), c, start, end, env).Refused?
    ensures Push(d, env) == core && Ready(d, env)
    ensures var left, r := LeftBehind(core, Prim(k), c, start, end, env), SetPartitionGeom(d, Prim(k), c, start, end, env);
            && r.Ret? && !r.value.1
            && (Complete(r.value.0, core) <==> left.None? || TakenAsIs(core.prims, k, left.value, core.len))
  {
    hide Sound, Holds, Complete, SetGeomCore, Push, Pop, Usable, LeftBehind, AbortsAt, RestoreAt, TakenAsIs;
    GoodReady(d, core, env);
    RefusedStep(d, core, Prim(k), c, start, end, env);
    RefusedLeaves(core, Prim(k), c, start, end, env);
    var left := LeftBehind(core, Prim(k), c, start, end, env);
    if left.Some? {
      NormalNever(core, k, left.value, env);
      LeftComplete(core, k, left.value, env);
    }
  }

  /** The table left behind is complete exactly when its primary list tiles. */
  lemma LeftComplete(core: Disk, k: nat, g: Geom, env: Env)
    requires Sound(core, env) && env.Valid() && core.mode == 1 && k < |core.prims| && core.prims[k].kind == Normal && g.Valid()
    requires var r := Pop(SetPart(core, Prim(k), core.prims[k].(geom := g)), env);
             r.Ret? && Holds(RestoreAt(r.value, Prim(k), core.prims[k].geom), core)
    ensures var r := Pop(SetPart(core, Prim(k), core.prims[k].(geom := g)), env);
            Complete(RestoreAt(r.value, Prim(k), core.prims[k].geom), core) <==> TakenAsIs(core.prims, k, g, core.len)
  {
    hide Sound, Holds, Complete, Pop, Tiles, TakenAsIs, TilesExt, AllTables;
    var d1 := RestoreAt(Pop(SetPart(core, Prim(k), core.prims[k].(geom := g)), env).value, Prim(k), core.prims[k].geom);
    RefusedTiling(core, k, g, env);
    CompleteMeans(d1, core, env);
    if TakenAsIs(core.prims, k, g, core.len) && HasExt(core) {
      TakenOn(core, k, g, env);
      WithExt(core, env);
      LogsUnmoved(core, k, g, env);
      PopComplete(core, env);
      CompleteLogs(Pop(core, env).value, core);
    }
  }

  lemma TakenOn(core: Disk, k: nat, g: Geom, env: Env)
    requires Sound(core, env) && k < |core.prims| && TakenAsIs(core.prims, k, g, core.len)
    ensures g.start < core.len
  {
    hide Sound;
    EntryIn(core, k, env);
  }

  lemma WithExt(core: Disk, env: Env)
    requires Sound(core, env) && HasExt(core)
    ensures env.scheme.Msdos?
  {
  }

  lemma CompleteLogs(d: Disk, core: Disk)
    requires Complete(d, core) && HasExt(core)
    ensures TilesExt(d.logs, ExtPart(core).geom) && AllTables(d.logs, ExtPart(core).geom)
  {
  }

  lemma CompleteMeans(d: Disk, core: Disk, env: Env)
    requires Holds(d, core) && Sound(core, env)
    ensures Complete(d, core) <==>
            && Tiles(d.prims, 0, core.len - 1)
            && (HasExt(core) ==> TilesExt(d.logs, ExtPart(core).geom) && AllTables(d.logs, ExtPart(core).geom))
  {
    hide Tiles, TilesExt, AllTables, Blank, Actives;
    CoreActives(core, env);
    SameExt(d.prims, core.prims);
  }

  lemma NormalNever(core: Disk, k: nat, g: Geom, env: Env)
    requires Handle(core, Prim(k)) && env.Valid() && core.prims[k].kind == Normal
    ensures !AbortsAt(core, Prim(k), g, env)
  {
  }

  // ---- a refusal that loses the tiling ----------------------------------------------------------------

  /** Only sector 0 would do, which holds the label. */
  function SectorZero(): (c: Option<C.Constraint>)
    ensures C.ValidOpt(c)
  {
    Some(C.FromMax(Geom(0, 0)))
  }

  /** The first partition, asked to start on sector 1 with that constraint, is refused
      by either label after its region was overwritten. */
  lemma ZeroRefused(core: Disk, env: Env)
    requires Sound(core, env) && env.Valid() && !core.clobber && Usable(core) && core.prims != [] && core.prims[0].kind == Normal
    ensures Handle(core, Prim(0)) && core.prims[0].geom.end >= 1
    ensures var end := core.prims[0].geom.end;
            && SetGeomCore(core, Prim(0), SectorZero(), 1, end, env).Refused?
            && LeftBehind(core, Prim(0), SectorZero(), 1, end, env) == Some(Geom(1, end))
  {
    hide Sound, CheckPartition, Align, OverlapConstraint, C.Intersect, SectorZero;
    var end := core.prims[0].geom.end;
    FirstPlace(core, env);
    ZeroBounds(core, env);
    ZeroUnplaced(core, Geom(1, end), env);
  }

  lemma FirstPlace(core: Disk, env: Env)
    requires Sound(core, env) && core.prims != []
    ensures var g := core.prims[0].geom; 1 <= g.start <= g.end < core.len
    ensures |core.prims| > 1 ==> core.prims[0].geom.end < core.prims[1].geom.start
    ensures Laid(core)
  {
    hide PrimNums, LogNums, Actives;
    assert core.prims[0].geom.Valid();
  }

  lemma ZeroBounds(core: Disk, env: Env)
    requires Sound(core, env) && Usable(core) && core.prims != [] && core.prims[0].kind == Normal && Handle(core, Prim(0))
    ensures Bounds(core, Prim(0), SectorZero(), 1).Some?
  {
    hide Sound, OverlapConstraint, FreeStretch, C.Intersect, C.FromMax;
    FirstPlace(core, env);
    StretchAround(core, Prim(0), 1);
    ZeroOverlap(core);
    OverlapIsMax(core, Normal, 0, 1);
    C.FromMaxMeaning(FreeStretch(core, Normal, 0, 1).value, Geom(0, 0));
    C.FromMaxMeaning(Geom(0, 0), Geom(0, 0));
    C.IntersectExact(OverlapConstraint(core, Normal, 0, 1), SectorZero(), Geom(0, 0));
  }

  lemma ZeroOverlap(core: Disk)
    requires Overlappable(core, Normal) && FreeStretch(core, Normal, 0, 1).Some?
    ensures OverlapConstraint(core, Normal, 0, 1).Some?
  {
  }

  lemma ZeroUnplaced(core: Disk, asked: Geom, env: Env)
    requires Usable(core) && env.Valid() && !core.clobber && Handle(core, Prim(0)) && core.prims[0].kind == Normal && asked.Valid()
    ensures PlaceFor(core, Prim(0), Bounds(core, Prim(0), SectorZero(), 1), asked, env).None?
  {
    hide Align, OverlapConstraint, C.Intersect, C.FromMax;
    var p, over := core.prims[0].(geom := asked), OverlapConstraint(core, Normal, 0, 1);
    var both := C.Intersect(over, SectorZero());
    SetPartExt(core, Prim(0), p);
    AlignSound(SetPart(core, Prim(0), p), p, both, 0, env);
    var r := Align(SetPart(core, Prim(0), p), p, both, 0, env);
    if r.Some? {
      C.IntersectExact(over, SectorZero(), r.value);
      C.FromMaxMeaning(Geom(0, 0), r.value);
    }
  }

  /** On either label a refused change can lose the tiling: any table whose first
      partition starts behind sector 1, asked to move it there with a constraint that
      only sector 0 would satisfy. */
  lemma TilingLost(d: Disk, core: Disk, env: Env)
    requires Good(d, core, env) && env.Valid() && !core.clobber
    requires core.prims != [] && core.prims[0].kind == Normal && core.prims[0].geom.start > 1
    ensures Push(d, env) == core && Ready(d, env) && Handle(core, Prim(0)) && core.prims[0].geom.end >= 1
    ensures var r := SetPartitionGeom(d, Prim(0), SectorZero(), 1, core.prims[0].geom.end, env);
            r.Ret? && !r.value.1 && !Complete(r.value.0, core)
  {
    hide Sound, Holds, SetGeomCore, Push, Usable, LeftBehind, SectorZero, Complete, SetPartitionGeom;
    GoodReady(d, core, env);
    ZeroRefused(core, env);
    PrimaryRefusal(d, core, 0, SectorZero(), 1, core.prims[0].geom.end, env);
  }

  // ---- a refusal that ends the program --------------------------------------------------------------------

  /** The start is fixed, the rest free. */
  function StartFixed(start: int, len: int): (c: Option<C.Constraint>)
    requires start >= 0 && len > 0
    ensures C.ValidOpt(c)
  {
    Some(C.New(Some(A.Any), Some(A.Any), Geom(start, start), Geom(0, len - 1), 1, len))
  }

  lemma StartFixedMeaning(start: int, len: int, g: Geom)
    requires start >= 0 && len > 0 && g.Valid()
    ensures C.Solves(StartFixed(start, len), g) <==> g.start == start && g.end < len
  {
    C.AnyAdmits(g.start);
    C.AnyAdmits(g.end);
  }

  /** A logical partition other than number 5 and another one right before it in the
      list. */
  ghost predicate BehindAnother(core: Disk, k: nat, env: Env) {
    && env.scheme.Msdos? && HasExt(core) && 0 < k < |core.logs| && core.logs[k].num != 5
  }

  lemma LogPlace(core: Disk, k: nat, env: Env)
    requires Sound(core, env) && BehindAnother(core, k, env)
    ensures Handle(core, Log(k)) && Laid(core) && core.logs[k].kind == Logical
    ensures var s, ext := core.logs, ExtPart(core).geom;
            && ext.start < s[k - 1].geom.start <= s[k - 1].geom.end && s[k - 1].geom.end + 2 <= s[k].geom.start <= s[k].geom.end <= ext.end < core.len
            && (k + 1 < |s| ==> s[k].geom.end < s[k + 1].geom.start)
            && Spaced(s, -1, ext) && AllActive(s) && ext.start >= 0
  {
    hide PrimNums, LogNums, OneExtended, InLimits, Actives, Spaced;
    AllLogical(core);
    var s, ext := core.logs, ExtPart(core).geom;
    ExtOn(core, env);
    LaidLogs(core);
    GapsOf(core);
    GapsSpaced(s, ext);
    GapsAround(core, k);
    assert ext.start < s[k - 1].geom.start by { SpacedAt(s, ext, k - 1); }
    assert s[k - 1].geom.Valid() && s[k].geom.Valid();
  }

  lemma SpacedAt(s: seq<Part>, ext: Geom, i: nat)
    requires Spaced(s, -1, ext) && i < |s|
    ensures ext.start < s[i].geom.start
  {
  }

  lemma TouchBounds(core: Disk, k: nat, env: Env)
    requires Sound(core, env) && Usable(core) && BehindAnother(core, k, env) && Handle(core, Log(k))
    ensures var start := core.logs[k - 1].geom.end + 1;
            start >= 0 && Bounds(core, Log(k), StartFixed(start, core.len), start).Some?
  {
    hide Sound, OverlapConstraint, FreeStretch, C.Intersect, StartFixed;
    LogPlace(core, k, env);
    var start := core.logs[k - 1].geom.end + 1;
    var g := Geom(start, core.logs[k].geom.end);
    StretchAround(core, Log(k), start);
    TouchOverlap(core, k, start);
    OverlapIsMax(core, Logical, k, start);
    C.FromMaxMeaning(FreeStretch(core, Logical, k, start).value, g);
    StartFixedMeaning(start, core.len, g);
    C.IntersectExact(OverlapConstraint(core, Logical, k, start), StartFixed(start, core.len), g);
  }

  lemma TouchOverlap(core: Disk, k: nat, start: int)
    requires Overlappable(core, Logical) && FreeStretch(core, Logical, k, start).Some?
    ensures OverlapConstraint(core, Logical, k, start).Some?
  {
  }

  /** The label finds no place: the sector before would have to hold the table. */
  lemma TouchUnplaced(core: Disk, k: nat, asked: Geom, env: Env)
    requires Sound(core, env) && Usable(core) && env.Valid() && !core.clobber && BehindAnother(core, k, env) && Handle(core, Log(k))
    requires asked.Valid() && asked.start == core.logs[k - 1].geom.end + 1
    ensures PlaceFor(core, Log(k), Bounds(core, Log(k), StartFixed(asked.start, core.len), asked.start), asked, env).None?
  {
    hide Sound, Align, OverlapConstraint, C.Intersect, StartFixed, KeepsTables, Spaced, MetaSpace, Level;
    LogPlace(core, k, env);
    var c := StartFixed(asked.start, core.len);
    var p, over := core.logs[k].(geom := asked), OverlapConstraint(core, Logical, k, asked.start);
    var both, d := C.Intersect(over, c), SetPart(core, Log(k), p);
    SetPartExt(core, Log(k), p);
    AlignSound(d, p, both, k, env);
    var r := Align(d, p, both, k, env);
    if r.Some? {
      C.IntersectExact(over, c, r.value);
      StartFixedMeaning(asked.start, core.len, r.value);
      TouchRoom(core, k, p, r.value);
    }
  }

  lemma TouchRoom(core: Disk, k: nat, p: Part, g: Geom)
    requires HasExt(core) && 0 < k < |core.logs| && Spaced(core.logs, -1, ExtPart(core).geom) && AllActive(core.logs)
    requires p.kind == Logical && p.num != 5 && g.Valid() && KeepsTables(SetPart(core, Log(k), p), p, k, Some(g))
    ensures g.start != core.logs[k - 1].geom.end + 1
  {
    hide MetaSpace;
    var d := SetPart(core, Log(k), p);
    SpacedAfterMove(core.logs, k, p, ExtPart(core).geom);
    assert AllActive(d.logs);
    MetaSpaceRoom(d, p, k, g, k - 1);
    assert d.logs[k - 1] == core.logs[k - 1];
    assert core.logs[k - 1].geom.start <= core.logs[k - 1].geom.end;
  }

  /** Left there, the partition has no room for its table; the one behind it finds the
      same end as before. */
  lemma TouchAborts(core: Disk, k: nat, env: Env)
    requires Sound(core, env) && env.Valid() && BehindAnother(core, k, env) && Handle(core, Log(k))
    ensures AbortsAt(core, Log(k), Geom(core.logs[k - 1].geom.end + 1, core.logs[k].geom.end), env)
  {
    hide Sound, Left.Valid, TableEvent;
    LogPlace(core, k, env);
    var g := Geom(core.logs[k - 1].geom.end + 1, core.logs[k].geom.end);
    var c := Left(core.logs[k := core.logs[k].(geom := g)], ExtPart(core).geom, core.len, env.probe(ExtPart(core)), k);
    LeftValid(core, k, g, env);
    TouchEvent(c);
    TouchNext(core, k, g, env);
  }

  lemma TouchEvent(c: Left)
    requires c.Valid() && 0 < c.k && c.l[c.k].num != 5 && c.l[c.k].geom.start == c.l[c.k - 1].geom.end + 1
    ensures c.Moved().Aborts?
  {
    hide LogNums, RoomyBut, InsideBut, A.RoundDownTo;
    if c.Blocked() {
      var y :| 0 <= y < |c.l| && c.Blocks(y);
    }
  }

  lemma TouchNext(core: Disk, k: nat, g: Geom, env: Env)
    requires Sound(core, env) && env.Valid() && BehindAnother(core, k, env) && g.Valid() && g.end == core.logs[k].geom.end
    ensures Left(core.logs[k := core.logs[k].(geom := g)], ExtPart(core).geom, core.len, env.probe(ExtPart(core)), k).Next().Passes?
  {
    hide PrimNums, LogNums, OneExtended, InLimits, Actives, A.RoundDownTo;
    if k + 1 < |core.logs| {
      ExtOn(core, env);
      assert GapBefore(core.logs, ExtPart(core).geom, k + 1);
      assert core.logs[k].geom.Valid() && ExtPart(core).geom.Encloses(core.logs[k].geom) && ExtPart(core).geom.Encloses(core.logs[k + 1].geom);
      TableBelow(core.logs[k + 1], env.probe(ExtPart(core)));
    }
  }

  /** Asked to start right behind the logical partition before it, with that start
      fixed, any logical partition but number 5 ends the program. */
  lemma ProgramEnds(d: Disk, core: Disk, k: nat, env: Env)
    requires Good(d, core, env) && env.Valid() && !core.clobber && BehindAnother(core, k, env)
    ensures Push(d, env) == core && Ready(d, env) && Handle(core, Log(k)) && 0 <= core.logs[k - 1].geom.end < core.logs[k].geom.end
    ensures var start, end := core.logs[k - 1].geom.end + 1, core.logs[k].geom.end;
            SetPartitionGeom(d, Log(k), StartFixed(start, core.len), start, end, env).Crash?
  {
    hide Sound, Holds, Push, Usable, AbortsAt, StartFixed, Bounds, PlaceFor, RestoreAt, Pop, CheckPartition;
    GoodReady(d, core, env);
    LogPlace(core, k, env);
    var start, end := core.logs[k - 1].geom.end + 1, core.logs[k].geom.end;
    TouchBounds(core, k, env);
    TouchUnplaced(core, k, Geom(start, end), env);
    TouchAborts(core, k, env);
    RefusedStep(d, core, Log(k), StartFixed(start, core.len), start, end, env);
  }
}
