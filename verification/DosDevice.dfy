/** Writing and reading an msdos table on a device, sector by sector
    (libparted/labels/dos.c:1083-1255, 1330-1482), proved to do what the functions
    of EbrWrite.dfy and EbrRead.dfy say; the round trip then holds of it. */
module DosDevice {
  import opened CInt
  import opened Geometry
  import opened PartList
  import opened Disk
  import opened DiskLayout
  import opened Tiling
  import opened DiskOps
  import opened DosTable
  import opened EbrWrite
  import opened EbrRead
  import C = Constraint
  import P = PedDisk

  /** `write_ext_table` */
  method WriteExtTable(dev: array<Sector>, d: Disk, num: int, chs: ChsOf) returns (ok: bool)
    requires HasExt(d) && HasLog(d, num)
    modifies dev
    ensures ok == WriteExt(old(dev[..]), d, num, chs).Some?
    ensures ok ==> dev[..] == WriteExt(old(dev[..]), d, num, chs).value
    decreases MAX_TOTAL_PART + 1 - num
  {
    hide EbrEntries, PutTable, EbrSector;
    var sector := EbrSector(d, num);
    if !(0 <= sector < dev.Length) { return false; }
    var buffer := PutTable(dev[sector], EbrEntries(d, num, chs));
    if HasLog(d, num + 1) && num < MAX_TOTAL_PART {
      ok := WriteExtTable(dev, d, num + 1, chs);
      if !ok { return; }
    }
    dev[sector] := buffer;
    return true;
  }

  /** `write_extended_partitions` */
  method WriteExtendedPartitions(dev: array<Sector>, d: Disk, chs: ChsOf) returns (ok: bool)
    requires HasExt(d)
    modifies dev
    ensures ok == WriteExtended(old(dev[..]), d, chs).Some?
    ensures ok ==> dev[..] == WriteExtended(old(dev[..]), d, chs).value
  {
    hide PutTable, WriteExt;
    if HasLog(d, 5) {
      ok := WriteExtTable(dev, d, 5, chs);
      return;
    }
    var sector := ExtPart(d).geom.start;
    if !(0 <= sector < dev.Length) { return false; }
    dev[sector] := PutTable(dev[sector], [NO_ENTRY, NO_ENTRY, NO_ENTRY, NO_ENTRY]);
    return true;
  }

  /** `msdos_write` */
  method WriteMsdos(dev: array<Sector>, d: Disk, head: seq<byte>, chs: ChsOf) returns (ok: bool)
    requires |head| == 446 && dev.Length > 0
    modifies dev
    ensures ok == WriteTable(old(dev[..]), d, head, chs).Some?
    ensures ok ==> dev[..] == WriteTable(old(dev[..]), d, head, chs).value
  {
    hide PutTable, WriteExtended, PrimEntries;
    var boot: Sector := head + dev[0][446..];
    if HasExt(d) {
      ok := WriteExtendedPartitions(dev, d, chs);
      if !ok { return; }
    }
    dev[0] := PutTable(boot, PrimEntries(d, chs));
    return true;
  }

  // ---- reading ----------------------------------------------------------------------------------

  /** `ped_disk_add_partition` with an exact constraint. */
  method AddRead(disk: P.PedDisk, p: Part, env: Env) returns (ok: bool)
    requires disk.Valid() && p.kind.Active() && p.geom.Valid() && env.Valid()
    modifies disk, disk.primObjects, disk.logObjects
    ensures disk.Valid() && fresh(disk.primObjects - old(disk.primObjects)) && fresh(disk.logObjects - old(disk.logObjects))
    ensures ok == AddExact(old(disk.Now()), p, env).Some?
    ensures ok ==> disk.Now() == AddExact(old(disk.Now()), p, env).value
  {
    hide AddPartition, C.Exact, DiskOps.Ready, P.PedDisk.Valid, P.PedDisk.Now;
    var d := disk.Look();
    if !DiskOps.Ready(d, env) || d.len < 2 { return false; }
    var fine;
    fine, ok := disk.AddPartition(p, Some(C.Exact(p.geom, d.len)), env);
    ok := fine && ok;
  }

  datatype Outcome = Fine | Bad | TooDeep

  ghost predicate Agrees(o: Outcome, d: Disk, r: ReadResult) {
    match o
    case Fine => r == Done(d)
    case Bad => r == Failed
    case TooDeep => r == OutOfFuel
  }

  /** `read_table` */
  method ReadTableFrom(dev: array<Sector>, disk: P.PedDisk, sector: int, isExt: bool, env: Env, fuel: nat) returns (o: Outcome)
    requires disk.Valid() && dev !in disk.primObjects && dev !in disk.logObjects && env.Valid()
    modifies disk, disk.primObjects, disk.logObjects
    ensures disk.Valid() && fresh(disk.primObjects - old(disk.primObjects)) && fresh(disk.logObjects - old(disk.logObjects))
    ensures Agrees(o, disk.Now(), ReadTable(dev[..], old(disk.Now()), sector, isExt, env, fuel))
    decreases fuel, 1
  {
    hide ReadParts, ReadNested, Magic, P.PedDisk.Valid, P.PedDisk.Now;
    if fuel == 0 { return TooDeep; }
    if !(0 <= sector < dev.Length) { return Bad; }
    var s := dev[sector];
    assert dev[..][sector] == s;
    if isExt && Magic(s) == PARTITION_MAGIC_MAGIC { return Fine; }
    if Magic(s) != MSDOS_MAGIC { return Bad; }
    o := ReadEntries(dev, disk, s, sector, isExt, env, fuel);
    if o == Fine && isExt { o := ReadNestedTables(dev, disk, s, sector, env, fuel); }
  }

  /** The first loop of `read_table`. */
  method ReadEntries(dev: array<Sector>, disk: P.PedDisk, s: Sector, sector: int, isExt: bool, env: Env, fuel: nat) returns (o: Outcome)
    requires disk.Valid() && dev !in disk.primObjects && dev !in disk.logObjects && env.Valid() && sector >= 0 && fuel > 0
    modifies disk, disk.primObjects, disk.logObjects
    ensures disk.Valid() && fresh(disk.primObjects - old(disk.primObjects)) && fresh(disk.logObjects - old(disk.logObjects))
    ensures Agrees(o, disk.Now(), ReadParts(dev[..], old(disk.Now()), s, sector, isExt, 0, env, fuel))
    decreases fuel, 0
  {
    hide EntryOf, AddExact, ReadTable, P.PedDisk.Valid, P.PedDisk.Now;
    var offset := if isExt then sector else 0;
    var i := 0;
    while i < 4
      invariant 0 <= i <= 4
      invariant disk.Valid() && fresh(disk.primObjects - old(disk.primObjects)) && fresh(disk.logObjects - old(disk.logObjects))
      invariant ReadParts(dev[..], old(disk.Now()), s, sector, isExt, 0, env, fuel)
                == ReadParts(dev[..], disk.Now(), s, sector, isExt, i, env, fuel)
    {
      var raw := EntryOf(s, i);
      if raw.kind == 0 || raw.length == 0 || (isExt && IsExtendedKind(raw.kind)) {
        i := i + 1;
        continue;
      }
      if offset + raw.start == sector { return Bad; }
      var kind := if isExt then Logical else if IsExtendedKind(raw.kind) then Extended else Normal;
      var p := Parse(raw, offset, kind, if isExt then UNNUMBERED else i + 1);
      var ok := AddRead(disk, p, env);
      if !ok { return Bad; }
      if kind == Extended {
        o := ReadTableFrom(dev, disk, p.geom.start, true, env, fuel - 1);
        if o != Fine { return; }
      }
      i := i + 1;
    }
    return Fine;
  }

  /** The second loop of `read_table`. */
  method ReadNestedTables(dev: array<Sector>, disk: P.PedDisk, s: Sector, sector: int, env: Env, fuel: nat) returns (o: Outcome)
    requires disk.Valid() && dev !in disk.primObjects && dev !in disk.logObjects && env.Valid() && fuel > 0
    modifies disk, disk.primObjects, disk.logObjects
    ensures disk.Valid() && fresh(disk.primObjects - old(disk.primObjects)) && fresh(disk.logObjects - old(disk.logObjects))
    ensures Agrees(o, disk.Now(), ReadNested(dev[..], old(disk.Now()), s, sector, 0, env, fuel))
    decreases fuel, 0
  {
    hide EntryOf, ReadTable, P.PedDisk.Valid, P.PedDisk.Now;
    var i := 0;
    while i < 4
      invariant 0 <= i <= 4
      invariant disk.Valid() && fresh(disk.primObjects - old(disk.primObjects)) && fresh(disk.logObjects - old(disk.logObjects))
      invariant ReadNested(dev[..], old(disk.Now()), s, sector, 0, env, fuel)
                == ReadNested(dev[..], disk.Now(), s, sector, i, env, fuel)
    {
      var raw := EntryOf(s, i);
      if IsExtendedKind(raw.kind) {
        var d := disk.Look();
        if !HasExt(d) { return Bad; }
        var start := ExtPart(d).geom.start + raw.start;
        if start != sector {
          o := ReadTableFrom(dev, disk, start, true, env, fuel - 1);
          if o != Fine { return; }
        }
      }
      i := i + 1;
    }
    return Fine;
  }

  /** Writing a table and reading it back into a fresh disk gives the same partitions. */
  method WriteThenRead(dev: array<Sector>, d: Disk, head: seq<byte>, chs: ChsOf, env: Env, disk: P.PedDisk, fuel: nat, ghost core: Disk)
    returns (ok: bool, o: Outcome)
    requires Complete(d, core) && Sound(core, env) && Typed(core) && env.Valid() && env.scheme.Msdos?
    requires |head| == 446 && dev.Length == core.len > 0 && fuel > |core.logs| + 1
    requires disk.Valid() && dev !in disk.primObjects && dev !in disk.logObjects && Holds(disk.Now(), Disk(core.len, [], [], 1, true))
    modifies dev, disk, disk.primObjects, disk.logObjects
    ensures disk.Valid() && ok && o == Fine
    ensures Actives(disk.Now().prims) == Actives(d.prims) && Actives(disk.Now().logs) == Actives(d.logs)
  {
    hide Complete, Sound, Typed, Holds, WriteTable, ReadTable, Actives, P.PedDisk.Now;
    RoundTrip(dev[..], d, core, head, chs, env, disk.Now(), fuel);
    ok := WriteMsdos(dev, d, head, chs);
    o := ReadTableFrom(dev, disk, 0, false, env, fuel);
  }
}
