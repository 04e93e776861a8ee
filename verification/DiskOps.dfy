/** The operations of libparted/disk.c:1925-2445 on the partition table. */
module DiskOps {
  import opened Geometry
  import A = Alignment
  import C = Constraint
  import opened PartList
  import opened Disk
  import opened LabelAlign

  const LLONG_MAX := A.INT64_MAX

  // ---- the overlap constraint -------------------------------------------------------------

  predicate Overlappable(d: Disk, kind: Kind) {
    && NonNegative(d.prims) && NonNegative(d.logs)
    && (kind.InExtended() ==> HasExt(d))
  }

  function FreeStretch(d: Disk, kind: Kind, skip: int, start: int): Option<Geom>
    requires Overlappable(d, kind)
  {
    if kind.InExtended()
    then Gap(d.logs, skip, start, ExtPart(d).geom.start, ExtPart(d).geom.end)
    else Gap(d.prims, skip, start, 0, LLONG_MAX - 1)
  }

  lemma {:induction false} GapWalkNonNeg(s: seq<Part>, skip: int, start: int, i: nat, minStart: int)
    requires i <= |s| && NonNegative(s) && minStart >= 0
    ensures GapWalk(s, skip, start, i, minStart).1 >= 0
    decreases |s| - i
  {
    if i < |s| && (s[i].geom.start < start || minStart >= s[i].geom.start) {
      GapWalkNonNeg(s, skip, start, i + 1, if i != skip then s[i].geom.end + 1 else minStart);
    }
  }

  /** `_partition_get_overlap_constraint` */
  function OverlapConstraint(d: Disk, kind: Kind, skip: int, start: int): (r: Option<C.Constraint>)
    requires Overlappable(d, kind)
    ensures C.ValidOpt(r)
    ensures r.Some? <==> FreeStretch(d, kind, skip, start).Some?
  {
    GapWalkNonNeg(d.prims, skip, start, 0, 0);
    if kind.InExtended() then
      assert NonNegative(d.prims);
      GapWalkNonNeg(d.logs, skip, start, 0, ExtPart(d).geom.start);
      var free := FreeStretch(d, kind, skip, start);
      if free.None? then None else Some(C.FromMax(free.value))
    else
      var free := FreeStretch(d, kind, skip, start);
      if free.None? then None else Some(C.FromMax(free.value))
  }

  // ---- checks -------------------------------------------------------------------------------

  /** `_partition_check_basic_sanity` for an active partition. */
  predicate BasicSanity(d: Disk, p: Part, env: Env) {
    && (env.scheme.Bsd? ==> p.kind == Normal)
    && (p.kind.InExtended() || |Actives(d.prims)| + 1 <= (if env.scheme.Bsd? then BSD_MAXPARTITIONS else DOS_N_PRI_PARTITIONS))
    && (p.kind.InExtended() ==> HasExt(d))
  }

  /** `_check_partition` for an active partition; `self` is its handle when it is in
      the table already, which then holds its new region. */
  predicate CheckPartition(d: Disk, p: Part, self: Option<Ref>) {
    var isExt := HasExt(d) && self == Some(Prim(ExtIndex(d.prims)));
    && (p.kind == Extended ==> (HasExt(d) ==> isExt)
                               && forall i :: 0 <= i < |d.logs| && HasExt(d) ==> p.geom.Encloses(d.logs[i].geom))
    && (p.kind.InExtended() ==> HasExt(d) && ExtPart(d).geom.Encloses(p.geom))
    && (!p.kind.InExtended() && HasExt(d) && !isExt ==> !ExtPart(d).geom.Encloses(p.geom))
    && p.geom.end < d.len
    && p.geom.Length() <= UINT32_MAX && p.geom.start <= UINT32_MAX
  }

  /** What the library takes for granted about its own table. */
  predicate Usable(d: Disk) {
    d.len >= 2 && NonNegative(d.prims) && NonNegative(d.logs)
  }

  /** A table that update mode can be entered on. */
  predicate Ready(d: Disk, env: Env) {
    Usable(Push(d, env)) && HasExt(Push(d, env)) == HasExt(d)
  }

  /** `ped_disk_new_fresh`: the empty label is left out of update mode and then marked
      as new. */
  function Fresh(len: int, env: Env): Result<Disk>
    requires env.Valid()
  {
    var d :- Pop(Disk(len, [], [], 1, false), env);
    Ret(d.(clobber := true))
  }

  // ---- adding ---------------------------------------------------------------------------------

  /** What `ped_disk_add_partition` makes of a new active partition in update mode,
      its number and region settled; absent when the partition is refused. */
  function NewPart(d: Disk, p: Part, c: Option<C.Constraint>, env: Env): (r: Option<Part>)
    requires Usable(d) && p.kind.Active() && (p.kind.InExtended() ==> HasExt(d))
    requires C.ValidOpt(c) && env.Valid()
  {
    var both := C.Intersect(OverlapConstraint(d, p.kind, -1, p.geom.start), c);
    if both.None? && c.Some? then None else
    var num := EnumNum(d, env, p);
    if num.None? then None else
    var p1 := p.(num := num.value);
    var place := if d.clobber then Some(p.geom) else Align(d, p1, both, -1, env);
    if place.None? then None else
    var p2 := p1.(geom := place.value);
    if !CheckPartition(d, p2, None) then None else Some(p2)
  }

  /** `ped_disk_add_partition` for an active partition */
  function AddPartition(d: Disk, p: Part, c: Option<C.Constraint>, env: Env): Result<(Disk, bool)>
    requires Ready(d, env) && p.kind.Active() && C.ValidOpt(c) && env.Valid()
  {
    if !BasicSanity(d, p, env) then Ret((d, false)) else
    var d1 := Push(d, env);
    var r := NewPart(d1, p, c, env);
    var d2 :- Pop(if r.Some? then RawAdd(d1, r.value) else d1, env);
    Ret((d2, r.Some?))
  }

  // ---- moving and resizing ---------------------------------------------------------------------

  /** A refusal leaves the table unchanged, or with the partition's region already
      overwritten. */
  datatype Change = Changed(disk: Disk) | Refused(disk: Disk)

  /** A handle to a partition of the right level. */
  predicate Handle(d: Disk, ref: Ref) {
    RefOk(d, ref) && PartAt(d, ref).kind.InExtended() == ref.Log? && (ref.Log? ==> HasExt(d))
  }

  lemma SetPartExt(d: Disk, ref: Ref, p: Part)
    requires RefOk(d, ref) && p.kind == PartAt(d, ref).kind
    ensures ExtIndex(SetPart(d, ref, p).prims) == ExtIndex(d.prims)
  {
    var s, t := d.prims, SetPart(d, ref, p).prims;
    assert forall i :: 0 <= i < |s| ==> s[i].kind == t[i].kind;
    var j, k := ExtIndex(s), ExtIndex(t);
    if j >= 0 { assert t[j].kind == Extended; }
    if k >= 0 { assert s[k].kind == Extended; }
  }

  /** The constraint of a change: free of the others, and the caller's. */
  function Bounds(d: Disk, ref: Ref, c: Option<C.Constraint>, start: int): (r: Option<C.Constraint>)
    requires Usable(d) && Handle(d, ref) && C.ValidOpt(c)
    ensures C.ValidOpt(r)
  {
    C.Intersect(OverlapConstraint(d, PartAt(d, ref).kind, ref.k, start), c)
  }

  /** The place the label gives to a partition whose region has been overwritten
      with `asked`; while `needs_clobber` is set, that region itself. */
  function PlaceFor(d: Disk, ref: Ref, both: Option<C.Constraint>, asked: Geom, env: Env): (r: Option<Geom>)
    requires Usable(d) && Handle(d, ref) && C.ValidOpt(both) && env.Valid() && asked.Valid()
  {
    var p := PartAt(d, ref).(geom := asked);
    SetPartExt(d, ref, p);
    if d.clobber then Some(asked) else Align(SetPart(d, ref, p), p, both, ref.k, env)
  }

  /** The part of `ped_disk_set_partition_geom` inside update mode. */
  function SetGeomCore(d: Disk, ref: Ref, c: Option<C.Constraint>, start: int, end: int, env: Env): (r: Change)
    requires Usable(d) && Handle(d, ref) && C.ValidOpt(c) && env.Valid() && 0 <= start <= end
    ensures r.disk.mode == d.mode
  {
    var p := PartAt(d, ref);
    var both := Bounds(d, ref, c, start);
    if both.None? && c.Some? then Refused(d) else
    var p1 := p.(geom := Geom(start, end));
    var d1 := SetPart(d, ref, p1);
    var place := PlaceFor(d, ref, both, p1.geom, env);
    if place.None? then Refused(d1) else
    var p2 := p.(geom := place.value);
    var d2 := SetPart(d, ref, p2);
    if !CheckPartition(d2, p2, Some(ref)) then Refused(d2)
    else Changed(RawAdd(RawRemove(d, ref), p2))
  }

  /** The region that a change leaves in the table for its checks; absent when it is
      refused before the region is overwritten, for want of a common solution. */
  function LeftBehind(d: Disk, ref: Ref, c: Option<C.Constraint>, start: int, end: int, env: Env): Option<Geom>
    requires Usable(d) && Handle(d, ref) && C.ValidOpt(c) && env.Valid() && 0 <= start <= end
  {
    var both := Bounds(d, ref, c, start);
    if both.None? && c.Some? then None else
    var place := PlaceFor(d, ref, both, Geom(start, end), env);
    if place.None? then Some(Geom(start, end)) else place
  }

  /** The `k`-th active entry gets its region back. */
  function Restore(s: seq<Part>, k: nat, geom: Geom): seq<Part> {
    if s == [] then []
    else if !s[0].kind.Active() then [s[0]] + Restore(s[1..], k, geom)
    else if k == 0 then [s[0].(geom := geom)] + s[1..]
    else [s[0]] + Restore(s[1..], k - 1, geom)
  }

  function RestoreAt(d: Disk, ref: Ref, geom: Geom): Disk {
    match ref
    case Prim(k) => d.(prims := Restore(d.prims, k, geom))
    case Log(k) => d.(logs := Restore(d.logs, k, geom))
  }

  /** `ped_disk_set_partition_geom`; `ref` counts active partitions.  On a refusal
      update mode is left first and the old region put back afterwards. */
  function SetPartitionGeom(d: Disk, ref: Ref, c: Option<C.Constraint>, start: int, end: int, env: Env): Result<(Disk, bool)>
    requires Ready(d, env) && Handle(Push(d, env), ref) && C.ValidOpt(c) && env.Valid() && start >= 0
  {
    if end < start then Ret((d, false)) else
    var d1 := Push(d, env);
    var r := SetGeomCore(d1, ref, c, start, end, env);
    var d2 :- Pop(r.disk, env);
    if r.Changed? then Ret((d2, true)) else Ret((RestoreAt(d2, ref, PartAt(d1, ref).geom), false))
  }

  // ---- deleting ----------------------------------------------------------------------------------

  /** `ped_disk_delete_all_logical` in update mode */
  function DeleteLogicals(d: Disk, env: Env): (r: Disk)
    ensures r.mode == d.mode && |r.prims| == |d.prims|
    decreases |d.logs|
  {
    if d.logs == [] then d else DeleteLogicals(EnumerateAll(RawRemove(d, Log(0)), env), env)
  }

  /** `ped_disk_delete_partition` inside update mode */
  function DeleteCore(d: Disk, ref: Ref, env: Env): (r: Disk)
    requires RefOk(d, ref)
    ensures r.mode == d.mode
  {
    var d1 := if ref.Prim? && PartAt(d, ref).kind == Extended then DeleteLogicals(d, env) else d;
    EnumerateAll(RawRemove(d1, ref), env)
  }

  function DeletePartition(d: Disk, ref: Ref, env: Env): Result<Disk>
    requires RefOk(Push(d, env), ref) && env.Valid()
  {
    Pop(DeleteCore(Push(d, env), ref, env), env)
  }

  // ---- growing -------------------------------------------------------------------------------------

  /** The stretch between the neighbours: what `ped_disk_maximize_partition` asks for. */
  function WidestStart(d: Disk, ref: Ref): int
    requires Handle(d, ref)
  {
    match ref
    case Prim(k) => Before(d.prims, k, 0)
    case Log(k) => Before(d.logs, k, ExtPart(d).geom.start)
  }

  function WidestEnd(d: Disk, ref: Ref): int
    requires Handle(d, ref)
  {
    match ref
    case Prim(k) => Behind(d.prims, k + 1, d.len - 1)
    case Log(k) => Behind(d.logs, k + 1, ExtPart(d).geom.end)
  }
}
