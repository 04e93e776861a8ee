/** Finding out how far a partition could grow, from outside update mode and back
    (libparted/disk.c:2417-2445). */
module Probing {
  import opened Geometry
  import C = Constraint
  import opened PartList
  import opened Disk
  import opened DiskLayout
  import opened Tiling
  import opened LabelAlign
  import opened DiskOps
  import opened DiskInvariant
  import opened Growing
  import opened Resizing
  import opened Aborting
  import opened Requests
  import opened Runs

  /** A partition that can be asked to grow. */
  predicate Growable(d: Disk, ref: Ref) {
    Handle(d, ref) && 0 <= WidestStart(d, ref) <= WidestEnd(d, ref) && PartAt(d, ref).geom.Valid()
  }

  /** `ped_disk_get_max_partition_geometry`: grow, leave update mode, note the region,
      ask for exactly the old one, and check that it is back. */
  function MaxGeometry(d: Disk, ref: Ref, c: Option<C.Constraint>, env: Env): Result<(Disk, Option<Geom>)>
    requires Usable(Push(d, env)) && Growable(Push(d, env), ref) && C.ValidOpt(c) && env.Valid()
    requires Push(d, env).mode == 1
  {
    var core := Push(d, env);
    var was := PartAt(core, ref).geom;
    var (grown, ok) := MaximizeCore(core, ref, c, env);
    var d1 :- Pop(grown, env);
    if !ok then Ret((d1, None)) else
    if !Ready(d1, env) || !Handle(Push(d1, env), ref) then Crash else
    var (d2, _) :- SetPartitionGeom(d1, ref, Some(C.Exact(was, core.len)), was.start, was.end, env);
    if !RefOk(Push(d2, env), ref) || PartAt(Push(d2, env), ref).geom != was then Crash
    else Ret((d2, if RefOk(grown, ref) then Some(PartAt(grown, ref).geom) else None))
  }

  /** The table that the probe leaves: the old one after a success; after a failure the
      partition may have been aligned anew. */
  function AfterProbe(core: Disk, ref: Ref, c: Option<C.Constraint>, env: Env): Disk
    requires Usable(core) && Growable(core, ref) && C.ValidOpt(c) && env.Valid()
  {
    var (grown, ok) := MaximizeCore(core, ref, c, env);
    if ok then core else grown
  }

  lemma ProbeReady(d: Disk, core: Disk, ref: Ref, env: Env)
    requires Good(d, core, env) && Handle(core, ref)
    ensures Push(d, env) == core && Usable(core) && Growable(core, ref)
  {
    hide Sound, Push;
    GoodReady(d, core, env);
    WidestOrdered(core, ref, env);
  }

  /** From any sound table outside update mode the probe never fails an assertion, its
      closing one included, and leaves a complete table: after a success that of the
      same partitions, with the region found being a solution of the constraint. */
  lemma ProbeRestores(d: Disk, core: Disk, ref: Ref, c: Option<C.Constraint>, env: Env)
    requires Good(d, core, env) && env.Valid() && C.ValidOpt(c) && !core.clobber && Handle(core, ref) && PartAt(core, ref).kind != Extended
    ensures Push(d, env) == core && Usable(core) && Growable(core, ref)
    ensures var r, core' := MaxGeometry(d, ref, c, env), AfterProbe(core, ref, c, env);
            && r.Ret? && Sound(core', env) && Complete(r.value.0, core')
            && (r.value.1.Some? ==> core' == core && C.Solves(c, r.value.1.value))
  {
    hide Sound, Holds, Complete, Push, Pop, SetGeomCore, WidestStart, WidestEnd, C.Exact, MaximizeCore;
    ProbeReady(d, core, ref, env);
    var (grown, ok) := MaximizeCore(core, ref, c, env);
    var was := PartAt(core, ref).geom;
    if ok {
      MaxGeometryRestores(core, ref, c, env);
      BackFrom(grown, core, ref, env);
    } else {
      FailedProbe(core, ref, c, env);
      PopComplete(grown, env);
    }
  }

  lemma FailedProbe(core: Disk, ref: Ref, c: Option<C.Constraint>, env: Env)
    requires Sound(core, env) && env.Valid() && C.ValidOpt(c) && !core.clobber && Handle(core, ref) && PartAt(core, ref).kind != Extended
    requires Usable(core) && Growable(core, ref) && !MaximizeCore(core, ref, c, env).1
    ensures Sound(MaximizeCore(core, ref, c, env).0, env)
  {
    hide Sound, SetGeomCore, WidestStart, WidestEnd, C.AnyOn;
    var p := PartAt(core, ref);
    SetGeomSound(core, ref, Some(C.AnyOn(core.len)), p.geom.start, p.geom.end, env);
  }

  /** The way back through the two calls. */
  lemma BackFrom(grown: Disk, core: Disk, ref: Ref, env: Env)
    requires Sound(grown, env) && Sound(core, env) && env.Valid() && grown.mode == 1 && core.mode == 1
    requires Usable(grown) && Handle(grown, ref) && Handle(core, ref) && PartAt(core, ref).geom.Valid() && core.len > 0
    requires var was := PartAt(core, ref).geom;
             SetGeomCore(grown, ref, Some(C.Exact(was, core.len)), was.start, was.end, env) == Changed(core)
    ensures var d1 := Pop(grown, env);
            && d1.Ret? && Push(d1.value, env) == grown && Ready(d1.value, env)
            && var was := PartAt(core, ref).geom;
               var r := SetPartitionGeom(d1.value, ref, Some(C.Exact(was, core.len)), was.start, was.end, env);
               r.Ret? && Complete(r.value.0, core) && Push(r.value.0, env) == core
  {
    hide Sound, Holds, Complete, Push, Pop, SetGeomCore, Usable, C.Exact;
    PopComplete(grown, env);
    CompleteHolds(Pop(grown, env).value, grown);
    GoodReady(Pop(grown, env).value, grown, env);
    PopComplete(core, env);
    CompleteHolds(Pop(core, env).value, core);
    GoodReady(Pop(core, env).value, core, env);
  }

  // ---- the extended partition -----------------------------------------------------------------------------

  /** Widened by a safe request, the extended partition stays between its neighbours and
      the table sound. */
  lemma GrownExtended(core: Disk, e: nat, c: Option<C.Constraint>, env: Env) returns (g: Geom)
    requires Sound(core, env) && env.Valid() && C.ValidOpt(c) && !core.clobber && core.mode == 1 && Usable(core)
    requires e < |core.prims| && core.prims[e].kind == Extended && Handle(core, Prim(e)) && Growable(core, Prim(e))
    requires SafeRequest(core, e, Geom(WidestStart(core, Prim(e)), WidestEnd(core, Prim(e))), env)
    requires MaximizeCore(core, Prim(e), c, env).1
    ensures var grown := MaximizeCore(core, Prim(e), c, env).0;
            && grown == SetPart(core, Prim(e), core.prims[e].(geom := g)) && Sound(grown, env) && Usable(grown)
            && grown.mode == 1 && C.Solves(c, g) && BetweenNeighbours(core.prims, e, g) && g.Valid()
  {
    hide Sound, SetGeomCore, SafeRequest, WidestStart, WidestEnd, KeepsTables;
    g := WidestStays(core, Prim(e), c, env);
    RequestKeeps(core, e, c, WidestStart(core, Prim(e)), WidestEnd(core, Prim(e)), env);
    SoundUsable(MaximizeCore(core, Prim(e), c, env).0, env);
  }

  /** Asked for exactly its old region, the widened partition gets it exactly when the
      label admits that region. */
  lemma ExtendedBack(core: Disk, grown: Disk, e: nat, g: Geom, env: Env)
    requires Sound(core, env) && Sound(grown, env) && env.Valid() && env.scheme.Msdos? && !core.clobber && Usable(core) && Usable(grown)
    requires e < |core.prims| && core.prims[e].kind == Extended && Handle(core, Prim(e)) && Handle(grown, Prim(e))
    requires grown == SetPart(core, Prim(e), core.prims[e].(geom := g)) && g.Valid() && BetweenNeighbours(core.prims, e, g)
    ensures core.prims[e].geom.Valid() && core.len > 0
    ensures var was := core.prims[e].geom;
            var r := SetGeomCore(grown, Prim(e), Some(C.Exact(was, core.len)), was.start, was.end, env);
            && (Admitted(core, core.prims[e], env, was) ==> r == Changed(core))
            && (!Admitted(core, core.prims[e], env, was) ==>
                  r.Refused? && LeftBehind(grown, Prim(e), Some(C.Exact(was, core.len)), was.start, was.end, env) == Some(was))
  {
    hide Sound, RawAdd, RawRemove, Align, Bounds, Admitted, FreeStretch, HoldsLogs, C.Exact, C.Pinned, Usable, CheckPartition, BetweenNeighbours;
    var p := core.prims[e];
    WidestOrdered(core, Prim(e), env);
    ExtFrom1(core, e, env);
    BackStretch(core, grown, e, g, env);
    ExactBounds(grown, e, p.geom.start, p.geom);
    var both := Bounds(grown, Prim(e), Some(C.Exact(p.geom, core.len)), p.geom.start);
    PinnedSolves(both, p.geom);
    UsableFor(grown, e, p);
    UsableFor(core, e, p);
    assert SetPart(grown, Prim(e), p) == core by { SetBack(core, Prim(e), p.(geom := g)); }
    ExtPinned(core, p, both, e, env, p.geom);
    LogsHeld(core, e, env);
    ExtChecks(core, e, p.geom, env);
    CheckSame(core, e);
    LevelOf(core, Prim(e), env);
    BackPlace(core, grown, e, g);
  }

  lemma CheckSame(core: Disk, e: nat)
    requires e < |core.prims|
    ensures SetPart(core, Prim(e), core.prims[e]) == core && core.prims[e].(geom := core.prims[e].geom) == core.prims[e]
  {
    assert core.prims[e := core.prims[e]] == core.prims;
  }

  lemma LogsHeld(core: Disk, e: nat, env: Env)
    requires Sound(core, env) && e < |core.prims| && core.prims[e].kind == Extended
    ensures HoldsLogs(core, core.prims[e].geom)
  {
    hide PrimNums, LogNums, Actives;
    ExtIs(core.prims, e);
  }

  /** The old region lies in the stretch around its start. */
  lemma BackStretch(core: Disk, grown: Disk, e: nat, g: Geom, env: Env)
    requires Sound(core, env) && Sound(grown, env) && e < |core.prims| && core.prims[e].kind == Extended && Usable(grown) && Handle(grown, Prim(e))
    requires grown == SetPart(core, Prim(e), core.prims[e].(geom := g)) && BetweenNeighbours(core.prims, e, core.prims[e].geom)
    requires core.prims[e].geom.Valid() && core.prims[e].geom.end < core.len
    ensures var f := FreeStretch(grown, Extended, e, core.prims[e].geom.start); f.Some? && f.value.Encloses(core.prims[e].geom)
  {
    hide FreeStretch, PrimNums, LogNums, Actives, Level, OneExtended;
    SoundUsable(grown, env);
    StretchAround(grown, Prim(e), core.prims[e].geom.start);
    LongEnough(core, env);
  }

  lemma LongEnough(core: Disk, env: Env)
    requires Sound(core, env)
    ensures core.len - 1 <= LLONG_MAX - 1
  {
  }

  lemma BackPlace(core: Disk, grown: Disk, e: nat, g: Geom)
    requires Usable(core) && Handle(core, Prim(e)) && g.Valid() && Ordered(core.prims)
    requires grown == SetPart(core, Prim(e), core.prims[e].(geom := g)) && BetweenNeighbours(core.prims, e, core.prims[e].geom)
    ensures RawAdd(RawRemove(grown, Prim(e)), core.prims[e]) == core
  {
    var s := core.prims;
    assert RemoveAt(s[e := s[e].(geom := g)], e) == RemoveAt(s, e);
    InsertRemoved(s, e);
  }

  /** For the extended partition the closing assertion fails exactly when the label widened
      it but does not admit its old region. */
  lemma ProbeExtended(d: Disk, core: Disk, e: nat, c: Option<C.Constraint>, env: Env)
    requires Good(d, core, env) && env.Valid() && C.ValidOpt(c) && !core.clobber
    requires e < |core.prims| && core.prims[e].kind == Extended && Handle(core, Prim(e)) && Usable(core) && Growable(core, Prim(e))
    requires SafeRequest(core, e, Geom(WidestStart(core, Prim(e)), WidestEnd(core, Prim(e))), env)
    requires MaximizeCore(core, Prim(e), c, env).1
    ensures Push(d, env) == core
    ensures var was, r := core.prims[e].geom, MaxGeometry(d, Prim(e), c, env);
            var grown := MaximizeCore(core, Prim(e), c, env).0;
            && RefOk(grown, Prim(e))
            && (r.Ret? <==> Admitted(core, core.prims[e], env, was) || grown.prims[e].geom == was)
            && (r.Ret? ==> Good(r.value.0, core, env) && r.value.1 == Some(grown.prims[e].geom))
  {
    hide Sound, Holds, Complete, Push, Pop, SetGeomCore, WidestStart, WidestEnd, C.Exact, MaximizeCore, Admitted, SafeRequest, SetPartitionGeom,
         LeftBehind, BetweenNeighbours;
    ProbeReady(d, core, Prim(e), env);
    ResizeLabel(core, e, env);
    var g := GrownExtended(core, e, c, env);
    var grown, was := MaximizeCore(core, Prim(e), c, env).0, core.prims[e].geom;
    SetPartExt(core, Prim(e), core.prims[e].(geom := g));
    ExtendedBack(core, grown, e, g, env);
    if Admitted(core, core.prims[e], env, was) {
      BackFrom(grown, core, Prim(e), env);
      CompleteHolds(SetPartitionGeom(Pop(grown, env).value, Prim(e), Some(C.Exact(was, core.len)), was.start, was.end, env).value.0, core);
    } else {
      BackRefused(core, grown, e, g, env);
      CheckSame(core, e);
    }
  }

  /** The refusal leaves the widened partition as it is, and does not end the program. */
  lemma BackRefused(core: Disk, grown: Disk, e: nat, g: Geom, env: Env)
    requires Sound(core, env) && Sound(grown, env) && env.Valid() && env.scheme.Msdos? && Usable(grown) && grown.mode == 1
    requires e < |core.prims| && core.prims[e].kind == Extended && Handle(grown, Prim(e)) && core.prims[e].geom.Valid() && core.len > 0
    requires grown == SetPart(core, Prim(e), core.prims[e].(geom := g))
    requires var was := core.prims[e].geom;
             && SetGeomCore(grown, Prim(e), Some(C.Exact(was, core.len)), was.start, was.end, env).Refused?
             && LeftBehind(grown, Prim(e), Some(C.Exact(was, core.len)), was.start, was.end, env) == Some(was)
    ensures Pop(grown, env).Ret? && Push(Pop(grown, env).value, env) == grown && Ready(Pop(grown, env).value, env)
    ensures var was := core.prims[e].geom;
            var r := SetPartitionGeom(Pop(grown, env).value, Prim(e), Some(C.Exact(was, core.len)), was.start, was.end, env);
            r.Ret? && Holds(r.value.0, grown) && Push(r.value.0, env) == grown
  {
    hide Sound, Holds, Complete, Push, Pop, SetGeomCore, Usable, C.Exact, LeftBehind, AbortsAt, SetPartitionGeom;
    var was := core.prims[e].geom;
    PopComplete(grown, env);
    CompleteHolds(Pop(grown, env).value, grown);
    GoodReady(Pop(grown, env).value, grown, env);
    RefusedStep(Pop(grown, env).value, grown, Prim(e), Some(C.Exact(was, core.len)), was.start, was.end, env);
    NoAbort(core, grown, e, g, env);
    GoodReady(SetPartitionGeom(Pop(grown, env).value, Prim(e), Some(C.Exact(was, core.len)), was.start, was.end, env).value.0, grown, env);
  }

  lemma NoAbort(core: Disk, grown: Disk, e: nat, g: Geom, env: Env)
    requires Sound(core, env) && env.Valid() && e < |core.prims| && core.prims[e].kind == Extended && Handle(grown, Prim(e))
    requires grown == SetPart(core, Prim(e), core.prims[e].(geom := g))
    ensures !AbortsAt(grown, Prim(e), core.prims[e].geom, env)
  {
    hide Sound, FirstAborts, AddStartEnd;
    if env.scheme.Msdos? && core.logs != [] {
      OneExt(core, e, env);
      FirstFine(core, env);
    }
  }

  /** A sound table on which it fails whenever the partition is widened: number 5 starts
      right behind the first sector of the extended partition, and no cylinders are
      aligned. */
  lemma TightFive(core: Disk, e: nat, env: Env)
    requires Sound(core, env) && env.Valid() && env.scheme == Msdos(false) && Usable(core)
    requires e < |core.prims| && core.prims[e].kind == Extended && core.logs != []
    requires core.logs[0].num == 5 && core.logs[0].geom.start == core.prims[e].geom.start + 1
    ensures !Admitted(core, core.prims[e], env, core.prims[e].geom)
  {
    hide Sound, NoGeomExtended, PrimaryStartConstraint, PrimaryConstraint, ExtMinimum, HoldsLogs, NumIndex;
    SoundFive(core, env);
    ExtFrom1(core, e, env);
    LogsHeld(core, e, env);
    NoGeomIs(core, core.prims[e], core.prims[e].geom);
    FiveFirst(core, env);
  }

  lemma FiveFirst(core: Disk, env: Env)
    requires Sound(core, env) && core.logs != [] && core.logs[0].num == 5 && HasFive(core.logs)
    ensures LatestStart(core.logs, 1) == core.logs[0].geom.start - 2
  {
    AllLogical(core);
    assert HasNum(core.logs[0], 5);
  }
}
