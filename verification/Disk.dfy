/** The in-memory partition table (libparted/disk.c) and what the msdos and bsd
    labels (libparted/labels/dos.c, libparted/labels/bsd.c) do when update mode
    is entered and left: numbering, metadata and free-space placeholders. */
module Disk {
  import opened CInt
  import opened Geometry
  import opened PartList
  import A = Alignment

  /** `prims` is `disk->part_list`; `logs` is the `part_list` of the extended
      partition and is empty when there is none. */
  datatype Disk = Disk(len: int, prims: seq<Part>, logs: seq<Part>, mode: nat, clobber: bool)

  datatype Bios = Bios(heads: int, sectors: int) {
    predicate Valid() {
      heads > 0 && sectors > 0
    }

    function CylinderSize(): int {
      sectors * heads
    }
  }

  datatype Label = Bsd | Msdos(cylinderAlign: bool)

  /** What an operation depends on besides the table: the label, the device's BIOS
      geometry and the geometry probed from a partition's old table entry. */
  datatype Env = Env(scheme: Label, bios: Bios, probe: Part -> Bios) {
    ghost predicate Valid() {
      bios.Valid() && forall p :: probe(p).Valid()
    }
  }

  const DOS_N_PRI_PARTITIONS := 4
  const MAX_TOTAL_PART := 64
  const BSD_MAXPARTITIONS := 8
  const UINT32_MAX := 0xffff_ffff

  /** 1 for every logical partition but number 5, whose table sits at the start of
      the extended partition. */
  function Not5(num: int): int {
    if num != 5 then 1 else 0
  }

  /** A failed PED_ASSERT ends the program. */
  datatype Result<+T> = Crash | Ret(value: T) {
    predicate IsFailure() {
      Crash?
    }

    function PropagateFailure<U>(): Result<U>
      requires Crash?
    {
      Crash
    }

    function Extract(): T
      requires Ret?
    {
      value
    }
  }

  // ---- access ---------------------------------------------------------------

  /** Position of the first extended partition, or -1. */
  function ExtIndex(s: seq<Part>): (k: int)
    ensures -1 <= k < |s|
    ensures k >= 0 ==> s[k].kind == Extended
    ensures forall i :: 0 <= i < (if k < 0 then |s| else k) ==> s[i].kind != Extended
  {
    if s == [] then -1
    else if s[0].kind == Extended then 0
    else
      var k := ExtIndex(s[1..]);
      if k < 0 then -1 else k + 1
  }

  predicate HasExt(d: Disk) {
    ExtIndex(d.prims) >= 0
  }

  /** `ped_disk_extended_partition` */
  function ExtPart(d: Disk): Part
    requires HasExt(d)
  {
    d.prims[ExtIndex(d.prims)]
  }

  /** Handle of a partition: its list and its position in it. */
  datatype Ref = Prim(k: nat) | Log(k: nat)

  predicate RefOk(d: Disk, ref: Ref) {
    match ref
    case Prim(k) => k < |d.prims|
    case Log(k) => k < |d.logs|
  }

  function PartAt(d: Disk, ref: Ref): Part
    requires RefOk(d, ref)
  {
    match ref
    case Prim(k) => d.prims[k]
    case Log(k) => d.logs[k]
  }

  function SetPart(d: Disk, ref: Ref, p: Part): (r: Disk)
    requires RefOk(d, ref)
    ensures RefOk(r, ref) && PartAt(r, ref) == p
  {
    match ref
    case Prim(k) => d.(prims := d.prims[k := p])
    case Log(k) => d.(logs := d.logs[k := p])
  }

  /** `_disk_raw_add` */
  function RawAdd(d: Disk, p: Part): Disk {
    if p.kind.InExtended() then d.(logs := Insert(d.logs, p)) else d.(prims := Insert(d.prims, p))
  }

  /** `_disk_raw_remove` */
  function RawRemove(d: Disk, ref: Ref): Disk
    requires RefOk(d, ref)
  {
    match ref
    case Prim(k) => d.(prims := RemoveAt(d.prims, k))
    case Log(k) => d.(logs := RemoveAt(d.logs, k))
  }

  /** The depth-first order of `ped_disk_next_partition`: the entries of the
      extended partition come right behind it. */
  function Traversal(d: Disk): seq<Ref>
  {
    var e := ExtIndex(d.prims);
    if e < 0 then seq(|d.prims|, i requires i >= 0 => Prim(i))
    else
      seq(e + 1, i requires i >= 0 => Prim(i))
      + seq(|d.logs|, i requires i >= 0 => Log(i))
      + seq(|d.prims| - e - 1, i requires i >= 0 => Prim(e + 1 + i))
  }

  /** Without an extended partition there are no logical entries to visit. */
  lemma TraversalVisitsAll(d: Disk, ref: Ref)
    requires !HasExt(d) ==> d.logs == []
    ensures RefOk(d, ref) <==> ref in Traversal(d)
    ensures forall i :: 0 <= i < |Traversal(d)| ==> RefOk(d, Traversal(d)[i])
  {
    var t, e := Traversal(d), ExtIndex(d.prims);
    if RefOk(d, ref) {
      var i := match ref
               case Prim(k) => if e >= 0 && k > e then k + |d.logs| else k
               case Log(k) => e + 1 + k;
      assert t[i] == ref;
    }
  }

  // ---- numbers ---------------------------------------------------------------

  predicate HasNum(p: Part, num: int) {
    p.num == num && !p.kind.IsFree()
  }

  /** Whether `ped_disk_get_partition (disk, num)` finds a partition. */
  predicate NumUsed(d: Disk, num: int) {
    NumIn(d.prims, num) || NumIn(d.logs, num)
  }

  predicate NumIn(s: seq<Part>, num: int) {
    exists i :: 0 <= i < |s| && HasNum(s[i], num)
  }

  /** The search loops of `next_primary`, `next_logical` and `bsd_partition_enumerate`. */
  function NextFree(d: Disk, i: int, max: int): (n: int)
    ensures n != UNNUMBERED ==> i <= n <= max && !NumUsed(d, n) && forall m :: i <= m < n ==> NumUsed(d, m)
    ensures n == UNNUMBERED ==> i < 0 || forall m :: i <= m <= max ==> NumUsed(d, m)
    decreases max + 1 - i
  {
    if i > max then UNNUMBERED
    else if !NumUsed(d, i) then i
    else NextFree(d, i + 1, max)
  }

  /** `msdos_partition_enumerate` and `bsd_partition_enumerate`: the number to give
      to a partition, `d` being the table with that partition's number cleared. */
  function EnumNum(d: Disk, env: Env, p: Part): Option<int>
  {
    var n := match env.scheme
             case Bsd =>
               if p.num != UNNUMBERED then p.num else NextFree(d, 1, BSD_MAXPARTITIONS)
             case Msdos(_) =>
               if p.num != UNNUMBERED && p.num <= DOS_N_PRI_PARTITIONS then p.num
               else if p.kind.InExtended() then NextFree(d, 5, MAX_TOTAL_PART)
               else NextFree(d, 1, DOS_N_PRI_PARTITIONS);
    if n == UNNUMBERED then None else Some(n)
  }

  /** One call of `_partition_enumerate` on a partition in the table. */
  function EnumerateAt(d: Disk, env: Env, ref: Ref): (r: (Disk, bool))
    requires RefOk(d, ref)
    ensures |r.0.prims| == |d.prims| && |r.0.logs| == |d.logs|
    ensures r.0.mode == d.mode
  {
    var p := PartAt(d, ref);
    var cleared := SetPart(d, ref, p.(num := UNNUMBERED));
    var n := EnumNum(cleared, env, p);
    if n.None? then (cleared, false) else (SetPart(d, ref, p.(num := n.value)), true)
  }

  /** `ped_disk_get_partition`: the first hit in traversal order. */
  function FindNum(d: Disk, t: seq<Ref>, num: int): (r: Option<Ref>)
    requires forall i :: 0 <= i < |t| ==> RefOk(d, t[i])
    ensures r.Some? ==> r.value in t && HasNum(PartAt(d, r.value), num)
    ensures r.None? ==> forall i :: 0 <= i < |t| ==> !HasNum(PartAt(d, t[i]), num)
  {
    if t == [] then None
    else if HasNum(PartAt(d, t[0]), num) then Some(t[0])
    else FindNum(d, t[1..], num)
  }

  lemma TraversalOk(d: Disk)
    ensures forall i :: 0 <= i < |Traversal(d)| ==> RefOk(d, Traversal(d)[i])
  {
  }

  /** `ped_disk_get_last_partition_num` */
  function LastNum(s: seq<Part>): (n: int)
    ensures n >= UNNUMBERED
    ensures forall i :: 0 <= i < |s| ==> s[i].num <= n
  {
    if s == [] then UNNUMBERED else Max(s[0].num, LastNum(s[1..]))
  }

  /** First loop of `ped_disk_enumerate_partitions`: renumber by ascending number. */
  function Renumber(d: Disk, env: Env, i: int, last: int): (r: (Disk, bool))
    ensures |r.0.prims| == |d.prims| && |r.0.logs| == |d.logs|
    ensures r.0.mode == d.mode
    decreases last + 1 - i
  {
    if i > last then (d, true)
    else
      TraversalOk(d);
      var ref := FindNum(d, Traversal(d), i);
      if ref.None? then Renumber(d, env, i + 1, last)
      else
        TraversalMember(d, ref.value);
        var (d', ok) := EnumerateAt(d, env, ref.value);
        if !ok then (d', false) else Renumber(d', env, i + 1, last)
  }

  lemma TraversalMember(d: Disk, ref: Ref)
    requires ref in Traversal(d)
    ensures RefOk(d, ref)
  {
    TraversalOk(d);
  }

  /** Second loop: number the active partitions that have none. */
  function NumberRest(d: Disk, env: Env, t: seq<Ref>): (r: Disk)
    requires forall i :: 0 <= i < |t| ==> RefOk(d, t[i])
    ensures |r.prims| == |d.prims| && |r.logs| == |d.logs|
    ensures r.mode == d.mode
    decreases |t|
  {
    if t == [] then d
    else
      var p := PartAt(d, t[0]);
      if p.kind.Active() && p.num == UNNUMBERED then
        var (d', ok) := EnumerateAt(d, env, t[0]);
        assert forall i :: 0 <= i < |t| ==> RefOk(d, t[i]) ==> RefOk(d', t[i]);
        if !ok then d' else NumberRest(d', env, t[1..])
      else NumberRest(d, env, t[1..])
  }

  /** `ped_disk_enumerate_partitions` */
  function EnumerateAll(d: Disk, env: Env): (r: Disk)
    ensures |r.prims| == |d.prims| && |r.logs| == |d.logs|
    ensures r.mode == d.mode
  {
    var last := Max(LastNum(d.prims), if HasExt(d) then LastNum(d.logs) else UNNUMBERED);
    var (d', ok) := Renumber(d, env, 1, last);
    TraversalOk(d');
    if !ok then d' else NumberRest(d', env, Traversal(d'))
  }

  // ---- entering update mode ---------------------------------------------------

  function DropFree(s: seq<Part>): (r: seq<Part>)
    ensures |r| <= |s|
    ensures forall i :: 0 <= i < |r| ==> !r[i].kind.IsFree() && r[i] in s
  {
    if s == [] then []
    else (if s[0].kind.IsFree() then [] else [s[0]]) + DropFree(s[1..])
  }

  function FirstMeta(d: Disk, t: seq<Ref>): (r: Option<Ref>)
    requires forall i :: 0 <= i < |t| ==> RefOk(d, t[i])
    ensures r.Some? ==> r.value in t && PartAt(d, r.value).kind.IsMeta()
    ensures r.None? ==> forall i :: 0 <= i < |t| ==> !PartAt(d, t[i]).kind.IsMeta()
  {
    if t == [] then None
    else if PartAt(d, t[0]).kind.IsMeta() then Some(t[0])
    else FirstMeta(d, t[1..])
  }

  /** `_disk_remove_metadata`: each placeholder is deleted like any partition,
      which also renumbers the rest. */
  function DropMeta(d: Disk, env: Env): (r: Disk)
    ensures r.mode == d.mode
    decreases |d.prims| + |d.logs|
  {
    TraversalOk(d);
    var ref := FirstMeta(d, Traversal(d));
    if ref.None? then d
    else
      TraversalMember(d, ref.value);
      DropMeta(EnumerateAll(RawRemove(d, ref.value), env), env)
  }

  /** `_disk_push_update_mode` */
  function Push(d: Disk, env: Env): (r: Disk)
    ensures r.mode == d.mode + 1
  {
    if d.mode > 0 then d.(mode := d.mode + 1)
    else DropMeta(d.(prims := DropFree(d.prims), logs := DropFree(d.logs), mode := 1), env)
  }

  // ---- leaving update mode -----------------------------------------------------

  /** `ped_disk_add_partition` for a placeholder, in update mode: it is created,
      checked against the bounds only, and inserted. */
  function AddMeta(d: Disk, kind: Kind, start: int, end: int): Option<Disk>
    requires kind.IsMeta()
  {
    var g := Geom(start, end);
    if start > end then None
    else if kind.InExtended() && !(HasExt(d) && ExtPart(d).geom.Encloses(g)) then None
    else if !kind.InExtended() && HasExt(d) && ExtPart(d).geom.Encloses(g) then None
    else if end >= d.len then None
    else Some(RawAdd(d, Placeholder(kind, start, end)))
  }

  /** Outcome of a label's `alloc_metadata`; a refusal stops it but is ignored by
      its caller. */
  datatype Alloc = AssertFails | Stopped(disk: Disk) | Allocated(disk: Disk)

  function AddMetaThen(d: Disk, kind: Kind, start: int, end: int): (r: Alloc)
    requires kind.IsMeta()
    ensures !r.AssertFails?
  {
    var d' := AddMeta(d, kind, start, end);
    if d'.None? then Stopped(d) else Allocated(d'.value)
  }

  /** First normal or extended entry, and the last: `get_start_first_nonfree_part`,
      `get_end_last_nonfree_part`. */
  function FirstStart(s: seq<Part>): Option<int> {
    if s == [] then None
    else if s[0].kind.Normal? || s[0].kind.Extended? then Some(s[0].geom.start)
    else FirstStart(s[1..])
  }

  function LastEnd(s: seq<Part>): Option<int> {
    if s == [] then None
    else if s[|s| - 1].kind.Normal? || s[|s| - 1].kind.Extended? then Some(s[|s| - 1].geom.end)
    else LastEnd(s[..|s| - 1])
  }

  function InitEnd(d: Disk, env: Env): int {
    var first := FirstStart(d.prims);
    if first.None? then env.bios.sectors - 1 else Min(env.bios.sectors - 1, first.value - 1)
  }

  function FinalStart(d: Disk, env: Env, cylinderAlign: bool): int
    requires env.bios.Valid()
  {
    var last := LastEnd(d.prims);
    CylinderPositive(env.bios);
    if !cylinderAlign then d.len - 1
    else if last.None? then A.RoundDownTo(d.len, env.bios.CylinderSize())
    else Max(last.value + 1, A.RoundDownTo(d.len, env.bios.CylinderSize()))
  }

  lemma CylinderPositive(bios: Bios)
    requires bios.Valid()
    ensures bios.CylinderSize() > 0
  {
  }

  /** `add_startend_metadata`, first and second placeholder. */
  function AddInit(d: Disk, initEnd: int): Alloc {
    if 0 < initEnd && initEnd <= d.len then AddMetaThen(d, Meta, 0, initEnd) else Allocated(d)
  }

  function AddFinal(d: Disk, initEnd: int, finalStart: int): Alloc {
    if finalStart < d.len - 1 && initEnd < finalStart
    then AddMetaThen(d, Meta, finalStart, d.len - 1)
    else Allocated(d)
  }

  function AddStartEnd(d: Disk, env: Env, cylinderAlign: bool): Alloc
    requires env.bios.Valid()
  {
    var initEnd := InitEnd(d, env);
    var finalStart := FinalStart(d, env, cylinderAlign);
    var r1 := AddInit(d, initEnd);
    if !r1.Allocated? then r1 else AddFinal(r1.disk, initEnd, finalStart)
  }

  function NumIndex(s: seq<Part>, num: int): (k: int)
    ensures -1 <= k < |s|
    ensures k >= 0 ==> HasNum(s[k], num)
    ensures forall i :: 0 <= i < (if k < 0 then |s| else k) ==> !HasNum(s[i], num)
  {
    if s == [] then -1
    else if HasNum(s[0], num) then 0
    else
      var k := NumIndex(s[1..], num);
      if k < 0 then -1 else k + 1
  }

  /** Where the placeholder before the logical partition at `k` starts. */
  function LogMetaStart(d: Disk, bios: Bios, k: nat): int
    requires bios.Valid() && HasExt(d) && k < |d.logs|
  {
    CylinderPositive(bios);
    Max(A.RoundDownTo(d.logs[k].geom.start - 1, bios.CylinderSize()),
        if k > 0 then d.logs[k - 1].geom.end + 1 else ExtPart(d).geom.start + 1)
  }

  /** `add_logical_part_metadata` */
  function AddLogMeta(d: Disk, bios: Bios, k: nat): Alloc
    requires bios.Valid() && HasExt(d) && k < |d.logs|
  {
    var start, end := LogMetaStart(d, bios, k), d.logs[k].geom.start - 1;
    var length := end - start + 1;
    if d.logs[k].num == 5 && length < bios.sectors then Allocated(d)
    else if length <= 0 then AssertFails
    else AddMetaThen(d, LogicalMeta, start, end)
  }

  /** The loop of `msdos_alloc_metadata` over the logical numbers from `i` on; no
      logical partition has a number beyond MAX_TOTAL_PART. */
  function AddLogMetas(d: Disk, env: Env, i: int): Alloc
    requires env.bios.Valid() && (forall p :: env.probe(p).Valid()) && HasExt(d)
    decreases MAX_TOTAL_PART + 1 - i
  {
    var k := NumIndex(d.logs, i);
    if k < 0 || i > MAX_TOTAL_PART then Allocated(d)
    else
      var r := AddLogMeta(d, env.probe(ExtPart(d)), k);
      if !r.Allocated? then r else AddLogMetas(r.disk, env, i + 1)
  }

  /** The msdos label marks the first sectors of the extended partition, up to the
      first entry in it. */
  function ExtTableEnd(d: Disk, env: Env): int
    requires HasExt(d)
  {
    var full := ExtPart(d).geom.start + env.probe(ExtPart(d)).sectors - 1;
    if d.logs == [] then full else Min(full, d.logs[0].geom.start - 1)
  }

  /** `msdos_alloc_metadata` and `bsd_alloc_metadata` */
  function AllocMeta(d: Disk, env: Env): Alloc
    requires env.Valid()
  {
    match env.scheme
    case Bsd => AddMetaThen(d, Meta, 0, 0)
    case Msdos(cylinderAlign) =>
      var r1 := AddStartEnd(d, env, cylinderAlign);
      if !r1.Allocated? || !HasExt(r1.disk) then r1
      else
        var r2 := AddLogMetas(r1.disk, env, 5);
        if !r2.Allocated? || !HasExt(r2.disk) then r2
        else
          AddMetaThen(r2.disk, LogicalMeta, ExtPart(r2.disk).geom.start, ExtTableEnd(r2.disk, env))
  }

  /** `_disk_alloc_freespace` */
  function AllocFree(d: Disk): Disk {
    d.(logs := if HasExt(d) then FillFree(DropFree(d.logs), ExtPart(d).geom.start, ExtPart(d).geom.end, LogicalFree)
               else d.logs,
       prims := FillFree(DropFree(d.prims), -1, d.len - 1, Free))
  }

  /** `_disk_pop_update_mode` */
  function Pop(d: Disk, env: Env): Result<Disk>
    requires d.mode > 0 && env.Valid()
  {
    if d.mode > 1 then Ret(d.(mode := d.mode - 1))
    else
      var r := AllocMeta(d, env);
      if r.AssertFails? then Crash else Ret(AllocFree(r.disk.(mode := 0)))
  }
}
