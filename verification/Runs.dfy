/** Whole runs of operations outside update mode.  The placeholders come and go with
    every call; what counts is the table of partitions behind them, and each call
    acts on it like its update-mode core. */
module Runs {
  import opened Geometry
  import A = Alignment
  import C = Constraint
  import opened PartList
  import opened Disk
  import opened DiskLayout
  import opened Numbering
  import opened Tiling
  import opened LabelAlign
  import opened DiskOps
  import opened DiskInvariant
  import opened Requests
  import opened Aborting

  /** Handles count partitions, not placeholders. */
  datatype Op =
    | Add(part: Part, c: Option<C.Constraint>)
    | SetGeom(ref: Ref, c: Option<C.Constraint>, start: int, end: int)
    | Delete(ref: Ref)
    | Commit

  /** Calls a client may make on the table `core`: new partitions have no number yet and
      handles are valid.  Until the first commit of a new label nothing is aligned, so
      regions are exact ones that need no aligning; later on, an extended partition
      with logical ones in it is only changed by safe requests. */
  ghost predicate Allowed(core: Disk, op: Op, env: Env)
    requires Usable(core) && env.Valid()
  {
    match op
    case Add(p, c) =>
      && p.kind.Active() && p.num == UNNUMBERED && C.ValidOpt(c)
      && (core.clobber ==> AsIs(core, p, c) || (p.kind == Logical && !HasExt(core)))
    case SetGeom(ref, c, start, end) =>
      && Handle(core, ref) && start >= 0 && C.ValidOpt(c)
      && (if core.clobber then start <= end ==> AsIsMove(core, ref, c, Geom(start, end))
          else PartAt(core, ref).kind == Extended && start <= end ==> SafeRequest(core, ref.k, Geom(start, end), env))
    case Delete(ref) => RefOk(core, ref)
    case Commit => true
  }

  /** The call as made. */
  function Apply(d: Disk, op: Op, env: Env): Result<(Disk, bool)>
    requires Ready(d, env) && env.Valid() && Allowed(Push(d, env), op, env)
  {
    match op
    case Add(p, c) => AddPartition(d, p, c, env)
    case SetGeom(ref, c, start, end) => SetPartitionGeom(d, ref, c, start, end, env)
    case Delete(ref) =>
      var r :- DeletePartition(d, ref, env);
      Ret((r, true))
    case Commit => Ret((d.(clobber := false), true))
  }

  /** What it does to the table of partitions, and whether it succeeds. */
  function CoreStep(core: Disk, op: Op, env: Env): (Disk, bool)
    requires Usable(core) && env.Valid() && Allowed(core, op, env)
  {
    match op
    case Add(p, c) =>
      if !BasicSanity(core, p, env) then (core, false) else
      var r := NewPart(core, p, c, env);
      if r.Some? then (RawAdd(core, r.value), true) else (core, false)
    case SetGeom(ref, c, start, end) =>
      if end < start then (core, false) else
      var r := SetGeomCore(core, ref, c, start, end, env);
      if r.Changed? then (r.disk, true) else (core, false)
    case Delete(ref) => (DeleteCore(core, ref, env), true)
    case Commit => (core.(clobber := false), true)
  }

  // ---- the update-mode step keeps the table sound -----------------------------------------

  lemma CoreStepSound(core: Disk, op: Op, env: Env)
    requires Sound(core, env) && env.Valid() && core.mode == 1
    requires Usable(core) && Allowed(core, op, env)
    ensures var r := CoreStep(core, op, env).0;
            Sound(r, env) && r.mode == 1 && r.clobber == (core.clobber && !op.Commit?) && r.len == core.len
  {
    hide Sound, NewPart, SetGeomCore, DeleteCore, Handle, BasicSanity, SafeRequest, AsIs, AsIsMove;
    match op
    case Add(p, c) => StepAdd(core, p, c, env);
    case SetGeom(ref, c, start, end) =>
      if start <= end { StepSetGeom(core, ref, c, start, end, env); }
    case Delete(ref) => StepDelete(core, ref, env);
    case Commit => StepCommit(core, env);
  }

  lemma StepCommit(core: Disk, env: Env)
    requires Sound(core, env)
    ensures Sound(core.(clobber := false), env)
  {
  }

  lemma StepAdd(core: Disk, p: Part, c: Option<C.Constraint>, env: Env)
    requires Sound(core, env) && env.Valid() && Usable(core)
    requires Allowed(core, Add(p, c), env)
    ensures var r := CoreStep(core, Add(p, c), env).0;
            Sound(r, env) && r.mode == core.mode && r.clobber == core.clobber && r.len == core.len
  {
    hide Sound, NewPart;
    if BasicSanity(core, p, env) {
      AddSound(core, p, c, env);
    }
  }

  lemma StepSetGeom(core: Disk, ref: Ref, c: Option<C.Constraint>, start: int, end: int, env: Env)
    requires Sound(core, env) && env.Valid() && Usable(core) && 0 <= start <= end
    requires Allowed(core, SetGeom(ref, c, start, end), env)
    ensures var r := SetGeomCore(core, ref, c, start, end, env);
            r.Changed? ==> Sound(r.disk, env) && r.disk.mode == core.mode && r.disk.clobber == core.clobber && r.disk.len == core.len
  {
    hide Sound, SafeRequest, UnalignedMove, PlaceFor, Bounds, CheckPartition;
    if SetGeomCore(core, ref, c, start, end, env).Changed? {
      if PartAt(core, ref).kind != Extended {
        SetGeomSound(core, ref, c, start, end, env);
      } else if core.clobber {
        ClobberSetSound(core, ref, Geom(start, end), env);
      } else {
        RequestKeeps(core, ref.k, c, start, end, env);
      }
    }
  }

  lemma StepDelete(core: Disk, ref: Ref, env: Env)
    requires Sound(core, env) && RefOk(core, ref)
    ensures var r := DeleteCore(core, ref, env);
            Sound(r, env) && r.mode == core.mode && r.clobber == core.clobber && r.len == core.len
  {
    hide Sound, DeleteCore;
    match ref
    case Prim(k) =>
      if core.prims[k].kind == Extended { DeleteExtended(core, k, env); } else { DeletePrimary(core, k, env); }
    case Log(k) => DeleteLogical(core, k, env);
  }

  // ---- restoring a region --------------------------------------------------------------------

  lemma {:induction false} RestoreActives(s: seq<Part>, k: nat, geom: Geom)
    requires k < |Actives(s)|
    ensures Actives(Restore(s, k, geom)) == Actives(s)[k := Actives(s)[k].(geom := geom)]
  {
    var a := Actives(s[1..]);
    if !s[0].kind.Active() {
      assert Actives(s) == a;
      RestoreActives(s[1..], k, geom);
      ActivesPrepend(s[0], Restore(s[1..], k, geom));
    } else if k == 0 {
      ActivesPrepend(s[0].(geom := geom), s[1..]);
    } else {
      assert Actives(s) == [s[0]] + a;
      RestoreActives(s[1..], k - 1, geom);
      ActivesPrepend(s[0], Restore(s[1..], k - 1, geom));
      var b := a[k - 1 := a[k - 1].(geom := geom)];
      assert [s[0]] + b == ([s[0]] + a)[k := a[k - 1].(geom := geom)];
    }
  }

  lemma {:induction false} RestoreBlank(s: seq<Part>, k: nat, geom: Geom)
    requires Blank(s)
    ensures Blank(Restore(s, k, geom))
  {
    if s != [] {
      if !s[0].kind.Active() { RestoreBlank(s[1..], k, geom); }
      else if k > 0 { RestoreBlank(s[1..], k - 1, geom); }
    }
  }

  /** Putting the old region back after a refusal gives the old partitions. */
  lemma RestoreHolds(d: Disk, core: Disk, ref: Ref, g: Geom)
    requires RefOk(core, ref) && Holds(d, SetPart(core, ref, PartAt(core, ref).(geom := g)))
    requires AllActive(core.prims) && AllActive(core.logs) && HasExt(core) == HasExt(d)
    ensures Holds(RestoreAt(d, ref, PartAt(core, ref).geom), core)
  {
    hide Actives, Restore, Blank, ExtIndex;
    var was := PartAt(core, ref).geom;
    match ref
    case Prim(k) =>
      RestoreActives(d.prims, k, was);
      RestoreBlank(d.prims, k, was);
      assert Actives(Restore(d.prims, k, was)) == core.prims;
      ActivesOfActives(core.prims);
      SameExt(Restore(d.prims, k, was), core.prims);
    case Log(k) =>
      RestoreActives(d.logs, k, was);
      RestoreBlank(d.logs, k, was);
      assert Actives(Restore(d.logs, k, was)) == core.logs;
  }

  // ---- each call simulates its core -------------------------------------------------------------

  /** The state between calls: the partitions of `core`, which is sound. */
  ghost predicate Good(d: Disk, core: Disk, env: Env) {
    Holds(d, core) && Sound(core, env) && core.mode == 1
  }

  lemma GoodReady(d: Disk, core: Disk, env: Env)
    requires Good(d, core, env)
    ensures Push(d, env) == core && Usable(core) && Ready(d, env)
    ensures forall p :: BasicSanity(d, p, env) <==> BasicSanity(core, p, env)
  {
    hide Sound, Push, Actives;
    PushRestores(d, core, env);
    SoundUsable(core, env);
    CoreActives(core, env);
  }

  /** A refusal to move a partition leaves all partitions as they were. */
  lemma RefusedHolds(d: Disk, core: Disk, ref: Ref, c: Option<C.Constraint>, start: int, end: int, env: Env)
    requires Good(d, core, env) && env.Valid() && 0 <= start <= end
    requires Usable(core) && Handle(core, ref) && C.ValidOpt(c)
    requires SetGeomCore(core, ref, c, start, end, env).Refused?
    ensures var r := SetGeomCore(core, ref, c, start, end, env).disk;
            Pop(r, env).Ret? ==> Holds(RestoreAt(Pop(r, env).value, ref, PartAt(core, ref).geom), core)
  {
    hide Align, OverlapConstraint, C.Intersect, CheckPartition, Pop, Actives, Blank, RestoreAt, LogNums, PrimNums, Level;
    var r := SetGeomCore(core, ref, c, start, end, env).disk;
    var p := PartAt(core, ref);
    var g := PartAt(r, ref).geom;
    assert r == SetPart(core, ref, p.(geom := g)) by { RefusedShape(core, ref, c, start, end, env); }
    SetPartExt(core, ref, p.(geom := g));
    SetPartActive(core, ref, p.(geom := g));
    PopHolds(r, env);
    if Pop(r, env).Ret? {
      var d2 := Pop(r, env).value;
      assert HasExt(d2) == HasExt(core) by { HoldsExt(d2, r); }
      RestoreHolds(d2, core, ref, g);
    }
  }

  lemma RefusedShape(core: Disk, ref: Ref, c: Option<C.Constraint>, start: int, end: int, env: Env)
    requires Usable(core) && Handle(core, ref) && C.ValidOpt(c) && env.Valid() && 0 <= start <= end
    requires SetGeomCore(core, ref, c, start, end, env).Refused?
    ensures var r := SetGeomCore(core, ref, c, start, end, env).disk;
            RefOk(r, ref) && r == SetPart(core, ref, PartAt(core, ref).(geom := PartAt(r, ref).geom))
  {
    hide Align, OverlapConstraint, C.Intersect, CheckPartition;
    match ref
    case Prim(k) => assert core.prims[k := core.prims[k]] == core.prims;
    case Log(k) => assert core.logs[k := core.logs[k]] == core.logs;
  }

  lemma {:induction false} RestoreActive(s: seq<Part>, k: nat, geom: Geom)
    requires AllActive(s) && k < |s|
    ensures Restore(s, k, geom) == s[k := s[k].(geom := geom)]
  {
    if k > 0 {
      RestoreActive(s[1..], k - 1, geom);
      assert [s[0]] + s[1..][k - 1 := s[k].(geom := geom)] == s[k := s[k].(geom := geom)];
    }
  }

  /** A refused change made in update mode leaves the table exactly as it was. */
  lemma RefusedInside(d: Disk, ref: Ref, c: Option<C.Constraint>, start: int, end: int, env: Env)
    requires d.mode > 0 && AllActive(d.prims) && AllActive(d.logs) && Usable(d) && Handle(d, ref)
    requires Ready(d, env) && Handle(Push(d, env), ref) && C.ValidOpt(c) && env.Valid() && start >= 0
    requires var r := SetPartitionGeom(d, ref, c, start, end, env); r.Ret? && !r.value.1
    ensures SetPartitionGeom(d, ref, c, start, end, env) == Ret((d, false))
  {
    hide SetGeomCore, Restore, AllocMeta, AllocFree, DropMeta, DropFree, ExtIndex;
    if start <= end {
      var d1 := d.(mode := d.mode + 1);
      assert Push(d, env) == d1;
      RefusedShape(d1, ref, c, start, end, env);
      match ref
      case Prim(k) =>
        var g := SetGeomCore(d1, ref, c, start, end, env).disk.prims[k].geom;
        var s := d.prims[k := d.prims[k].(geom := g)];
        RestoreActive(s, k, d.prims[k].geom);
        assert s[k := s[k].(geom := d.prims[k].geom)] == d.prims;
      case Log(k) =>
        var g := SetGeomCore(d1, ref, c, start, end, env).disk.logs[k].geom;
        var s := d.logs[k := d.logs[k].(geom := g)];
        RestoreActive(s, k, d.logs[k].geom);
        assert s[k := s[k].(geom := d.logs[k].geom)] == d.logs;
    }
  }

  lemma SetPartActive(d: Disk, ref: Ref, p: Part)
    requires AllActive(d.prims) && AllActive(d.logs) && RefOk(d, ref) && p.kind.Active()
    ensures AllActive(SetPart(d, ref, p).prims) && AllActive(SetPart(d, ref, p).logs)
    ensures |SetPart(d, ref, p).logs| == |d.logs|
  {
  }

  lemma HoldsExt(d: Disk, core: Disk)
    requires Holds(d, core) && AllActive(core.prims)
    ensures HasExt(d) == HasExt(core)
  {
    ActivesOfActives(core.prims);
    SameExt(d.prims, core.prims);
  }

  /** The lists tile behind the call: always after a success, and after a refusal unless
      the region had been overwritten by then. */
  predicate WholeAfter(core: Disk, op: Op, whole: bool, env: Env)
    requires Usable(core) && env.Valid() && Allowed(core, op, env)
  {
    match op
    case Add(p, _) => BasicSanity(core, p, env) || whole
    case SetGeom(ref, c, start, end) =>
      if end < start then whole
      else SetGeomCore(core, ref, c, start, end, env).Changed? || LeftBehind(core, ref, c, start, end, env).None?
    case Delete(_) => true
    case Commit => whole
  }

  /** The call ends the program: a change is refused while leaving update mode with the
      region it was refused fails an assertion. */
  ghost predicate Fatal(core: Disk, op: Op, env: Env)
    requires Usable(core) && env.Valid() && Allowed(core, op, env)
  {
    && op.SetGeom? && op.start <= op.end && SetGeomCore(core, op.ref, op.c, op.start, op.end, env).Refused?
    && var left := LeftBehind(core, op.ref, op.c, op.start, op.end, env);
       left.Some? && AbortsAt(core, op.ref, left.value, env)
  }

  /** Each call acts on the partitions like its core; the table is complete behind it
      when it should be, and an assertion fails exactly in the fatal calls. */
  lemma StepSimulates(d: Disk, core: Disk, op: Op, env: Env, whole: bool)
    requires Good(d, core, env) && env.Valid() && Usable(core) && Allowed(core, op, env)
    requires Push(d, env) == core && Ready(d, env) && (whole ==> Complete(d, core))
    ensures var (core', ok) := CoreStep(core, op, env);
            var r := Apply(d, op, env);
            && (r.Crash? <==> Fatal(core, op, env))
            && (r.Ret? ==> r.value.1 == ok && Good(r.value.0, core', env))
            && (r.Ret? && WholeAfter(core, op, whole, env) ==> Complete(r.value.0, core'))
  {
    hide Sound, Holds, Complete, NewPart, SetGeomCore, DeleteCore, Push, Pop, RawAdd, Usable, AsIs, AsIsMove, SafeRequest, Handle,
         LeftBehind, AbortsAt;
    var (core', ok) := CoreStep(core, op, env);
    GoodReady(d, core, env);
    CoreStepSound(core, op, env);
    if op.Commit? {
      MarkKeeps(d, core, false);
    } else {
      PopComplete(core', env);
      CompleteHolds(Pop(core', env).value, core');
      if op.SetGeom? && op.start <= op.end && !ok {
        RefusedStep(d, core, op.ref, op.c, op.start, op.end, env);
      }
    }
  }

  lemma RefusedStep(d: Disk, core: Disk, ref: Ref, c: Option<C.Constraint>, start: int, end: int, env: Env)
    requires Good(d, core, env) && env.Valid() && 0 <= start <= end
    requires Usable(core) && Handle(core, ref) && C.ValidOpt(c) && Push(d, env) == core && Ready(d, env)
    requires SetGeomCore(core, ref, c, start, end, env).Refused?
    ensures var left, r := LeftBehind(core, ref, c, start, end, env), SetPartitionGeom(d, ref, c, start, end, env);
            && (r.Crash? <==> left.Some? && AbortsAt(core, ref, left.value, env))
            && (r.Ret? ==> !r.value.1 && Holds(r.value.0, core))
            && (left.None? ==> r.Ret? && Complete(r.value.0, core))
  {
    hide Sound, Holds, Complete, SetGeomCore, Push, Pop, Usable, LeftBehind, AbortsAt, RestoreAt;
    RefusedHolds(d, core, ref, c, start, end, env);
    RefusedLeaves(core, ref, c, start, end, env);
    var left := LeftBehind(core, ref, c, start, end, env);
    if left.Some? {
      PopAborts(core, ref, left.value, env);
    } else {
      PopComplete(core, env);
      RestoreSame(Pop(core, env).value, core, ref);
    }
  }

  /** Giving a partition the region it has. */
  lemma RestoreSame(d: Disk, core: Disk, ref: Ref)
    requires Complete(d, core) && RefOk(core, ref)
    ensures RestoreAt(d, ref, PartAt(core, ref).geom) == d
  {
    hide Tiles, TilesExt, AllTables, Blank;
    match ref
    case Prim(k) => RestoreOwn(d.prims, k);
    case Log(k) => RestoreOwn(d.logs, k);
  }

  lemma {:induction false} RestoreOwn(s: seq<Part>, k: nat)
    requires k < |Actives(s)|
    ensures Restore(s, k, Actives(s)[k].geom) == s
  {
    var a := Actives(s[1..]);
    if !s[0].kind.Active() {
      assert Actives(s) == a;
      RestoreOwn(s[1..], k);
    } else if k > 0 {
      assert Actives(s) == [s[0]] + a;
      RestoreOwn(s[1..], k - 1);
    }
  }

  /** `ped_disk_commit_to_dev` changes nothing but the mark of a new label. */
  lemma MarkKeeps(d: Disk, core: Disk, mark: bool)
    ensures Holds(d, core) ==> Holds(d.(clobber := mark), core.(clobber := mark))
    ensures Complete(d, core) ==> Complete(d.(clobber := mark), core.(clobber := mark))
  {
    hide AllTables, Tiles, TilesExt, Actives, Blank;
  }

  // ---- runs -----------------------------------------------------------------------------------------

  /** Calls made one after the other; the environment of each call may differ, the
      label does not. */
  datatype Call = Call(op: Op, env: Env)

  /** The calls lead from `d` to `d'`, none of them fatal.  `whole` says that the lists
      tile, on the way in and out. */
  ghost predicate Reaches(d: Disk, whole: bool, calls: seq<Call>, d': Disk, whole': bool)
    decreases |calls|
  {
    if calls == [] then d' == d && whole' == whole
    else
      var op, env := calls[0].op, calls[0].env;
      && env.Valid() && Ready(d, env) && Allowed(Push(d, env), op, env)
      && !Fatal(Push(d, env), op, env)
      && Apply(d, op, env).Ret?
      && Reaches(Apply(d, op, env).value.0, WholeAfter(Push(d, env), op, whole, env), calls[1..], d', whole')
  }

  lemma SoundForLabel(core: Disk, env: Env, env': Env)
    requires Sound(core, env) && env.scheme == env'.scheme
    ensures Sound(core, env')
  {
  }

  /** Over every run of additions, changes, deletions and commits, refused ones
      included, the partitions stay sorted, disjoint, nested, numbered and spaced, and
      the lists tile the device and the extended partition unless the last change was
      refused with its region overwritten. */
  lemma {:induction false} RunKeeps(d: Disk, core: Disk, env: Env, whole: bool, calls: seq<Call>, d': Disk, whole': bool)
    returns (core': Disk)
    requires Good(d, core, env) && Reaches(d, whole, calls, d', whole') && (whole ==> Complete(d, core))
    requires forall i :: 0 <= i < |calls| ==> calls[i].env.scheme == env.scheme
    ensures Good(d', core', env)
    ensures whole' ==> Complete(d', core')
    decreases |calls|
  {
    core' := core;
    if calls != [] {
      hide Good, Complete, Apply, Push, Ready, Allowed, Fatal, WholeAfter, Usable;
      var call := calls[0];
      core' := CallKeeps(d, core, env, call, whole);
      core' := RunKeeps(Apply(d, call.op, call.env).value.0, core', env, WholeAfter(Push(d, call.env), call.op, whole, call.env),
                        calls[1..], d', whole');
    }
  }

  lemma CallKeeps(d: Disk, core: Disk, env: Env, call: Call, whole: bool) returns (core': Disk)
    requires Good(d, core, env) && call.env.scheme == env.scheme && call.env.Valid() && (whole ==> Complete(d, core))
    requires Ready(d, call.env) && Allowed(Push(d, call.env), call.op, call.env)
    ensures Apply(d, call.op, call.env).Crash? <==> Fatal(Push(d, call.env), call.op, call.env)
    ensures var r := Apply(d, call.op, call.env);
            r.Ret? ==> && Good(r.value.0, core', env)
                       && (WholeAfter(Push(d, call.env), call.op, whole, call.env) ==> Complete(r.value.0, core'))
  {
    hide Sound, Holds, Complete, CoreStep, Push, Allowed, Usable, Apply, Fatal, WholeAfter;
    SoundForLabel(core, env, call.env);
    GoodReady(d, core, call.env);
    StepSimulates(d, core, call.op, call.env, whole);
    core' := CoreStep(core, call.op, call.env).0;
    if Apply(d, call.op, call.env).Ret? { SoundForLabel(core', call.env, env); }
  }

  /** A new label is a complete and sound start of a run. */
  lemma FreshGood(len: int, env: Env)
    requires 2 <= len <= A.INT64_MAX && env.Valid()
    ensures var core := Disk(len, [], [], 1, true);
            Fresh(len, env).Ret? && Good(Fresh(len, env).value, core, env) && Complete(Fresh(len, env).value, core)
  {
    hide Pop, Complete, Holds;
    var core := Disk(len, [], [], 1, false);
    BareSound(core, env);
    PopComplete(core, env);
    CompleteHolds(Pop(core, env).value, core);
    MarkKeeps(Pop(core, env).value, core, true);
  }

  /** Every run on a new label. */
  lemma FreshRuns(len: int, env: Env, calls: seq<Call>, d: Disk, whole: bool) returns (core: Disk)
    requires 2 <= len <= A.INT64_MAX && env.Valid() && Fresh(len, env).Ret? && Reaches(Fresh(len, env).value, true, calls, d, whole)
    requires forall i :: 0 <= i < |calls| ==> calls[i].env.scheme == env.scheme
    ensures Good(d, core, env) && (whole ==> Complete(d, core))
  {
    hide Good, Complete, Reaches, Fresh;
    FreshGood(len, env);
    core := RunKeeps(Fresh(len, env).value, Disk(len, [], [], 1, true), env, true, calls, d, whole);
  }

  // ---- looking up a sector -----------------------------------------------------------------------------

  /** `ped_disk_get_partition_by_sector`: the first entry in traversal order that
      holds the sector and is not the extended partition. */
  function BySector(d: Disk, t: seq<Ref>, sector: int): (r: Option<Ref>)
    requires forall i :: 0 <= i < |t| ==> RefOk(d, t[i])
    ensures r.Some? ==> r.value in t && Hits(d, r.value, sector)
    ensures r.None? ==> forall i :: 0 <= i < |t| ==> !Hits(d, t[i], sector)
  {
    if t == [] then None
    else if Hits(d, t[0], sector) then Some(t[0])
    else BySector(d, t[1..], sector)
  }

  predicate Hits(d: Disk, ref: Ref, sector: int)
    requires RefOk(d, ref)
  {
    PartAt(d, ref).geom.Contains(sector) && PartAt(d, ref).kind != Extended
  }

  /** A sector of the device, other than an uncovered first sector of the extended
      partition. */
  predicate HasEntry(d: Disk, sector: int) {
    0 <= sector < d.len && !(HasExt(d) && sector == ExtPart(d).geom.start && !StartCovered(d))
  }

  /** On a complete table the lookup finds an entry exactly for these sectors, and it is
      the only entry on the sector that is not the extended partition. */
  lemma BySectorUnique(d: Disk, core: Disk, env: Env, sector: int)
    requires Complete(d, core) && Sound(core, env)
    requires forall i :: 0 <= i < |Traversal(d)| ==> RefOk(d, Traversal(d)[i])
    ensures var r := BySector(d, Traversal(d), sector);
            && (r.Some? <==> HasEntry(d, sector))
            && (r.Some? ==> RefOk(d, r.value) && Hits(d, r.value, sector))
            && forall ref :: RefOk(d, ref) && Hits(d, ref, sector) ==> r == Some(ref)
  {
    hide Traversal, Sound, AllTables, Tiles, TilesExt, Actives, Blank, HasEntry;
    var r := BySector(d, Traversal(d), sector);
    if r.Some? { TraversalMember(d, r.value); }
    if HasEntry(d, sector) {
      var hit := SectorEntry(d, core, env, sector);
      TraversalVisitsAll(d, hit);
    } else {
      forall ref | RefOk(d, ref) ensures !Hits(d, ref, sector) { NoEntry(d, core, env, sector, ref); }
    }
  }

  lemma SectorEntry(d: Disk, core: Disk, env: Env, sector: int) returns (hit: Ref)
    requires Complete(d, core) && Sound(core, env) && HasEntry(d, sector)
    ensures RefOk(d, hit) && Hits(d, hit, sector)
    ensures forall ref :: RefOk(d, ref) && Hits(d, ref, sector) ==> ref == hit
  {
    hide Sound, AllTables, Actives, Blank, Tiles;
    var k := TilesCover(d.prims, 0, d.len - 1, sector);
    if HasExt(d) {
      OnlyExt(d, core, env);
      var ext := ExtPart(d).geom;
      ExtOnDevice(core, env);
      var lo := if StartCovered(d) then ext.start else ext.start + 1;
      var j := TilesCover(d.logs, lo, ext.end, sector);
      if k == ExtIndex(d.prims) {
        hit := Log(j);
      } else {
        hit := Prim(k);
        assert !ext.Contains(sector);
      }
    } else {
      hit := Prim(k);
    }
  }

  lemma NoEntry(d: Disk, core: Disk, env: Env, sector: int, ref: Ref)
    requires Complete(d, core) && Sound(core, env) && !HasEntry(d, sector) && RefOk(d, ref)
    ensures !Hits(d, ref, sector)
  {
    hide Sound, AllTables, Actives, Blank, Tiles;
    TilesOrdered(d.prims, 0, d.len - 1);
    if HasExt(d) {
      OnlyExt(d, core, env);
      var ext := ExtPart(d).geom;
      ExtOnDevice(core, env);
      TilesOrdered(d.logs, if StartCovered(d) then ext.start else ext.start + 1, ext.end);
      match ref
      case Prim(k) => if k != ExtIndex(d.prims) { NotInside(d, k); }
      case Log(k) =>
    }
  }

  /** Another primary entry keeps off the first sector of the extended partition. */
  lemma NotInside(d: Disk, k: nat)
    requires HasExt(d) && Ordered(d.prims) && k < |d.prims| && k != ExtIndex(d.prims)
    ensures !d.prims[k].geom.Contains(ExtPart(d).geom.start)
  {
    var e := ExtIndex(d.prims);
    assert d.prims[e].geom.Valid();
    if k < e { assert d.prims[k].geom.end < d.prims[e].geom.start; } else { assert d.prims[e].geom.end < d.prims[k].geom.start; }
  }

  lemma ExtOnDevice(core: Disk, env: Env)
    requires Sound(core, env) && HasExt(core)
    ensures ExtPart(core).geom.Valid() && ExtPart(core).geom.end < core.len
  {
  }

  /** Placeholders add no second extended partition. */
  lemma OnlyExt(d: Disk, core: Disk, env: Env)
    requires Complete(d, core) && Sound(core, env) && HasExt(d)
    ensures forall i :: 0 <= i < |d.prims| && d.prims[i].kind == Extended ==> i == ExtIndex(d.prims)
    ensures forall i :: 0 <= i < |d.logs| ==> d.logs[i].kind != Extended
  {
    forall i | 0 <= i < |d.prims| && d.prims[i].kind == Extended ensures i == ExtIndex(d.prims) {
      var e := ExtIndex(d.prims);
      ActPosFacts(d.prims, i);
      ActPosFacts(d.prims, e);
      if e < i { ActPosMono(d.prims, e, i); }
    }
    forall i | 0 <= i < |d.logs| ensures d.logs[i].kind != Extended {
      if d.logs[i].kind == Extended { ActPosFacts(d.logs, i); AllLogical(core); }
    }
  }
}
