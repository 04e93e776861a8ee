/** Leaving update mode gives an exact tiling with the same partitions, and
    entering it again gives back the table as it was. */
module Tiling {
  import opened Geometry
  import opened PartList
  import opened Disk
  import opened DiskLayout
  import opened Numbering

  // ---- extended partition and free space -------------------------------------------

  /** The extended partition of a list is that of its active entries. */
  lemma {:induction false} ExtOfActives(s: seq<Part>)
    ensures (ExtIndex(s) >= 0) == (ExtIndex(Actives(s)) >= 0)
    ensures ExtIndex(s) >= 0 ==> s[ExtIndex(s)] == Actives(s)[ExtIndex(Actives(s))]
  {
    if s != [] {
      hide Actives;
      ExtOfActives(s[1..]);
      ActivesHead(s);
      if s[0].kind.Active() { assert ([s[0]] + Actives(s[1..]))[1..] == Actives(s[1..]); }
    }
  }

  lemma {:induction false} DropFreeKeeps(s: seq<Part>)
    requires NoFreeIn(s)
    ensures DropFree(s) == s
  {
    if s != [] { DropFreeKeeps(s[1..]); }
  }

  /** The entries of the extended partition cover it from its second sector on; the
      first sector belongs to the first entry or to none. */
  predicate TilesExt(s: seq<Part>, ext: Geom) {
    if s != [] && s[0].geom.start == ext.start
    then Tiles(s, ext.start, ext.end)
    else Tiles(s, ext.start + 1, ext.end)
  }

  lemma FillTilesExt(s: seq<Part>, ext: Geom)
    requires Level(s, ext.start, ext.end, true) && ext.Valid()
    ensures TilesExt(FillFree(s, ext.start, ext.end, LogicalFree), ext)
  {
    hide FillFree;
    var r := FillFree(s, ext.start, ext.end, LogicalFree);
    if s != [] && s[0].geom.start == ext.start {
      OrderedTail(s);
      FillHead(s, ext);
      FillTiles(s[1..], s[0].geom.end, ext.end, LogicalFree);
    } else {
      assert s != [] ==> forall i :: 0 <= i < |s| ==> s[0].geom.start <= s[i].geom.start;
      FillTiles(s, ext.start, ext.end, LogicalFree);
      assert r != [] ==> r[0].geom.start == ext.start + 1;
    }
  }

  lemma FillHead(s: seq<Part>, ext: Geom)
    requires s != [] && s[0].geom.start == ext.start
    ensures var r := FillFree(s, ext.start, ext.end, LogicalFree);
            r != [] && r[0] == s[0] && r[1..] == FillFree(s[1..], s[0].geom.end, ext.end, LogicalFree)
  {
  }

  // ---- tables survive the filling -----------------------------------------------------

  /** All but the first entry have their table. */
  ghost predicate TailTables(s: seq<Part>, ext: Geom) {
    forall k :: 1 <= k < |s| && s[k].kind == Logical && s[k].num != 5 ==> HasTable(s, ext, k)
  }

  lemma TailTablesPush(p: Part, q: Part, s: seq<Part>, ext: Geom)
    requires TailTables([q] + s, ext)
    requires q.kind == Logical && q.num != 5 ==> HasTable([p, q], ext, 1)
    ensures TailTables([p] + ([q] + s), ext)
  {
    var t := [q] + s;
    var r := [p] + t;
    assert r[1] == q;
    forall k | 1 <= k < |r| && r[k].kind == Logical && r[k].num != 5 ensures HasTable(r, ext, k) {
      if k > 1 {
        assert r[k] == t[k - 1] && r[k - 1] == t[k - 2];
        assert HasTable(t, ext, k - 1);
      }
    }
  }

  lemma TailTablesPop(p: Part, q: Part, s: seq<Part>, ext: Geom)
    requires TailTables([p] + ([q] + s), ext)
    ensures TailTables([q] + s, ext)
    ensures q.kind == Logical && q.num != 5 ==> HasTable([p, q], ext, 1)
  {
    var t := [q] + s;
    var r := [p] + t;
    assert r[1] == q && r[0] == p;
    forall k | 1 <= k < |t| && t[k].kind == Logical && t[k].num != 5 ensures HasTable(t, ext, k) {
      assert r[k + 1] == t[k] && r[k] == t[k - 1];
      assert HasTable(r, ext, k + 1);
    }
    if q.kind == Logical && q.num != 5 { assert HasTable(r, ext, 1); }
  }

  lemma {:induction false} FillKeepsTables(p: Part, s: seq<Part>, hi: int, ext: Geom)
    requires TailTables([p] + s, ext)
    ensures TailTables([p] + FillFree(s, p.geom.end, hi, LogicalFree), ext)
    decreases |s|
  {
    hide TailTables, HasTable;
    var r := FillFree(s, p.geom.end, hi, LogicalFree);
    if s == [] {
      FillEmptyTables(p, hi, ext);
    } else {
      var q, rest := s[0], FillFree(s[1..], s[0].geom.end, hi, LogicalFree);
      assert s == [q] + s[1..];
      TailTablesPop(p, q, s[1..], ext);
      FillKeepsTables(q, s[1..], hi, ext);
      if q.geom.start > p.geom.end + 1 {
        var f := Placeholder(LogicalFree, p.geom.end + 1, q.geom.start - 1);
        assert r == [f] + ([q] + rest);
        NotAdjacent(p, q, ext);
        TailTablesPush(f, q, rest, ext);
        TailTablesPush(p, f, [q] + rest, ext);
      } else {
        assert r == [q] + rest;
        TailTablesPush(p, q, rest, ext);
      }
    }
  }

  lemma FillEmptyTables(p: Part, hi: int, ext: Geom)
    ensures TailTables([p] + FillFree([], p.geom.end, hi, LogicalFree), ext)
  {
  }

  lemma NotAdjacent(p: Part, q: Part, ext: Geom)
    requires q.geom.start > p.geom.end + 1
    ensures !HasTable([p, q], ext, 1)
  {
  }

  lemma FillAllTables(s: seq<Part>, ext: Geom)
    requires AllTables(s, ext)
    ensures AllTables(FillFree(s, ext.start, ext.end, LogicalFree), ext)
  {
    if s != [] {
      var r, rest := FillFree(s, ext.start, ext.end, LogicalFree), FillFree(s[1..], s[0].geom.end, ext.end, LogicalFree);
      assert s == [s[0]] + s[1..];
      FillKeepsTables(s[0], s[1..], ext.end, ext);
      assert AllTables([s[0]] + rest, ext) by { TablesHead(s, rest, ext); }
      if s[0].geom.start > ext.start + 1 {
        var f := Placeholder(LogicalFree, ext.start + 1, s[0].geom.start - 1);
        assert r == [f] + ([s[0]] + rest);
        TablesPrepend([s[0]] + rest, ext, f);
      } else {
        assert r == [s[0]] + rest;
      }
    }
  }

  lemma TablesHead(s: seq<Part>, rest: seq<Part>, ext: Geom)
    requires s != [] && AllTables(s, ext) && TailTables([s[0]] + rest, ext)
    ensures AllTables([s[0]] + rest, ext)
  {
    assert !(s[0].kind == Logical && s[0].num != 5);
  }

  // ---- leaving update mode -------------------------------------------------------------

  lemma {:induction false} FillBlank(s: seq<Part>, lastEnd: int, hi: int, kind: Kind)
    requires Blank(s) && !kind.Active()
    ensures Blank(FillFree(s, lastEnd, hi, kind))
  {
    if s != [] { FillBlank(s[1..], s[0].geom.end, hi, kind); }
  }

  /** `d` is the table `core` outside update mode: the same partitions, no sector
      left out or covered twice, and a placeholder before each logical partition
      but number 5. */
  ghost predicate Complete(d: Disk, core: Disk) {
    && d.mode == 0 && d.len == core.len && d.clobber == core.clobber
    && Actives(d.prims) == core.prims && Actives(d.logs) == core.logs
    && Blank(d.prims) && Blank(d.logs)
    && HasExt(d) == HasExt(core)
    && Tiles(d.prims, 0, d.len - 1)
    && (if HasExt(core)
        then ExtPart(d) == ExtPart(core) && TilesExt(d.logs, ExtPart(core).geom) && AllTables(d.logs, ExtPart(core).geom)
        else d.logs == [])
  }

  lemma AllocFreeComplete(d: Disk, core: Disk)
    requires Dresses(d, core) && NoFree(d) && d.mode == 0
    requires HasExt(core) ==> AllTables(d.logs, ExtPart(core).geom)
    ensures Complete(AllocFree(d), core)
  {
    hide FillFree, Actives, Level, OneExtended, AllTables, Tiles, TilesExt, Blank, NoFreeIn, DropFree;
    FillPrims(d);
    if HasExt(d) { FillLogs(d); } else { assert Blank(d.logs) by { NoneBlank(d); } }
  }

  lemma NoneBlank(d: Disk)
    requires Laid(d) && !HasExt(d)
    ensures Blank(d.logs)
  {
  }

  lemma NoFreeBlank(s: seq<Part>)
    requires NoFreeIn(s)
    ensures Blank(s)
  {
  }

  lemma FillPrims(d: Disk)
    requires Laid(d) && NoFree(d)
    ensures var s := FillFree(DropFree(d.prims), -1, d.len - 1, Free);
            && Tiles(s, 0, d.len - 1) && Blank(s) && Actives(s) == Actives(d.prims)
            && (ExtIndex(s) >= 0) == HasExt(d)
            && (HasExt(d) ==> s[ExtIndex(s)] == ExtPart(d))
  {
    hide FillFree, Actives, OneExtended, Level, Tiles, Blank, NoFreeIn, Ordered, Within, ExtIndex, DropFree;
    DropFreeKeeps(d.prims);
    LaidPrims(d);
    NoFreeBlank(d.prims);
    FillTiles(d.prims, -1, d.len - 1, Free);
    FillBlank(d.prims, -1, d.len - 1, Free);
    FillKeepsActives(d.prims, -1, d.len - 1, Free);
    SameExt(FillFree(d.prims, -1, d.len - 1, Free), d.prims);
  }

  /** Lists with the same partitions have the same extended partition. */
  lemma SameExt(s: seq<Part>, t: seq<Part>)
    requires Actives(s) == Actives(t)
    ensures (ExtIndex(s) >= 0) == (ExtIndex(t) >= 0)
    ensures ExtIndex(s) >= 0 ==> s[ExtIndex(s)] == t[ExtIndex(t)]
  {
    hide Actives, ExtIndex;
    ExtOfActives(s);
    ExtOfActives(t);
  }

  lemma FillLogs(d: Disk)
    requires Laid(d) && NoFree(d) && HasExt(d) && AllTables(d.logs, ExtPart(d).geom)
    ensures var ext := ExtPart(d).geom;
            var s := FillFree(DropFree(d.logs), ext.start, ext.end, LogicalFree);
            TilesExt(s, ext) && AllTables(s, ext) && Blank(s) && Actives(s) == Actives(d.logs)
  {
    hide FillFree, Actives, OneExtended, AllTables, TilesExt, Level, Blank, NoFreeIn, ExtIndex;
    var ext := ExtPart(d).geom;
    DropFreeKeeps(d.logs);
    NoFreeBlank(d.logs);
    LaidExt(d);
    FillTilesExt(d.logs, ext);
    FillAllTables(d.logs, ext);
    FillKeepsActives(d.logs, ext.start, ext.end, LogicalFree);
    FillBlank(d.logs, ext.start, ext.end, LogicalFree);
  }

  lemma LaidPrims(d: Disk)
    requires Laid(d)
    ensures Ordered(d.prims) && Within(d.prims, 0, d.len - 1) && d.len >= 2
  {
  }

  lemma LaidExt(d: Disk)
    requires Laid(d) && HasExt(d)
    ensures ExtPart(d).geom.Valid() && ExtPart(d).geom.end < d.len
  {
  }

  /** Leaving update mode on a sound table always succeeds and completes it. */
  lemma PopComplete(d: Disk, env: Env)
    requires Sound(d, env) && env.Valid() && d.mode == 1
    ensures Pop(d, env).Ret? && Complete(Pop(d, env).value, d)
  {
    hide Level, Actives, NoFreeIn, OneExtended, AllTables, AllocMeta, AllocFree, Placed, Numbered, Complete;
    AllocMetaDresses(d, env);
    var r := AllocMeta(d, env);
    AllocFreeComplete(r.disk.(mode := 0), d);
  }

  /** An entry starts on the first sector of the extended partition. */
  predicate StartCovered(d: Disk) {
    HasExt(d) && d.logs != [] && d.logs[0].geom.start == ExtPart(d).geom.start
  }

  /** The placeholder for the first sectors of the extended partition goes in front, unless
      it would not fit. */
  lemma ExtTableFirst(d: Disk, core: Disk, env: Env, n: int)
    requires TablesDone(Allocated(d), core, n) && env.Valid() && Past(d.logs, ExtPart(d).geom)
    ensures var ext := ExtPart(d);
            var r := AddMetaThen(d, LogicalMeta, ext.geom.start, ExtTableEnd(d, env));
            if d.logs != [] || ext.geom.Length() >= env.probe(ext).sectors
            then r.disk.logs != [] && r.disk.logs[0].geom.start == ext.geom.start
            else r.disk == d
  {
    hide Actives, NoFreeIn, OneExtended, HasTable, LogNums, AllTables;
    var ext, end := ExtPart(d).geom, ExtTableEnd(d, env);
    LaidExt(d);
    LaidLogs(d);
    FrontPlace(d.logs, end);
    InsertEntries(d.logs, Placeholder(LogicalMeta, ext.start, end));
    if d.logs != [] { FirstInside(d); }
  }

  lemma FirstInside(d: Disk)
    requires Laid(d) && HasExt(d) && d.logs != []
    ensures d.logs[0].geom.start <= ExtPart(d).geom.end
  {
    assert d.logs[0].geom.Valid();
  }

  lemma AllocStart(d: Disk, env: Env)
    requires Sound(d, env) && env.Valid() && env.scheme.Msdos? && HasExt(d) && d.mode > 0
    ensures !AllocMeta(d, env).AssertFails?
    ensures var r, ext := AllocMeta(d, env).disk.logs, ExtPart(d);
            if d.logs != [] || ext.geom.Length() >= env.probe(ext).sectors then r != [] && r[0].geom.start == ext.geom.start else r == []
  {
    hide Sound, AllocMeta, AddMetaThen, TablesDone, Past, ExtTableEnd, Actives, ExtIndex;
    var d2, n := AllocSteps(d, env);
    ExtTableFirst(d2, d, env, n);
  }

  /** The table before the last placeholder. */
  lemma AllocSteps(d: Disk, env: Env) returns (d2: Disk, n: int)
    requires Sound(d, env) && env.Valid() && env.scheme.Msdos? && HasExt(d) && d.mode > 0
    ensures TablesDone(Allocated(d2), d, n) && Past(d2.logs, ExtPart(d2).geom) && ExtPart(d2) == ExtPart(d)
    ensures AllocMeta(d, env) == AddMetaThen(d2, LogicalMeta, ExtPart(d2).geom.start, ExtTableEnd(d2, env))
    ensures d2.logs == [] <==> d.logs == []
  {
    hide Actives, NoFreeIn, OneExtended, PrimNums, LogNums, AddLogMetas, ExtTableEnd, AddStartEnd, AddMetaThen, AllTables, Level, Gapped, Past;
    n := |Actives(d.logs)|;
    AddStartEndDresses(d, env, env.scheme.cylinderAlign);
    var d1 := AddStartEnd(d, env, env.scheme.cylinderAlign).disk;
    GapsPending(d);
    AddLogMetasTables(d1, d, env, 5, n);
    d2 := AddLogMetas(d1, env, 5).disk;
    DressesExt(d2, d);
    SameEmpty(d, d1, d2, env);
  }

  lemma SameEmpty(d: Disk, d1: Disk, d2: Disk, env: Env)
    requires env.Valid() && HasExt(d1) && AddLogMetas(d1, env, 5) == Allocated(d2) && d1.logs == d.logs
    requires Actives(d2.logs) == d.logs
    ensures d2.logs == [] <==> d.logs == []
  {
  }

  /** Behind update mode the first sector of the extended partition has an entry exactly
      when there is a logical partition or the extended one is as long as a head. */
  lemma PopCoversStart(d: Disk, env: Env)
    requires Sound(d, env) && env.Valid() && env.scheme.Msdos? && HasExt(d) && d.mode == 1
    ensures Pop(d, env).Ret?
    ensures StartCovered(Pop(d, env).value) <==> d.logs != [] || ExtPart(d).geom.Length() >= env.probe(ExtPart(d)).sectors
  {
    hide Level, Actives, NoFreeIn, OneExtended, AllTables, AllocMeta, Placed, Numbered, FillFree, DropFree, Tiles, TilesExt, Blank, ExtIndex;
    PopComplete(d, env);
    AllocStart(d, env);
    AllocMetaDresses(d, env);
    var r := AllocMeta(d, env).disk;
    DressesExt(r, d);
    DropFreeKeeps(r.logs);
    var ext := ExtPart(d).geom;
    if r.logs != [] { FillHead(r.logs, ext); } else { FillStart(ext); }
  }

  lemma FillStart(ext: Geom)
    ensures var r := FillFree([], ext.start, ext.end, LogicalFree); r != [] ==> r[0].geom.start == ext.start + 1
  {
  }

  // ---- entering update mode --------------------------------------------------------------

  lemma {:induction false} DropFreeFacts(s: seq<Part>)
    requires Blank(s)
    ensures Actives(DropFree(s)) == Actives(s) && NoFreeIn(DropFree(s))
  {
    if s != [] {
      DropFreeFacts(s[1..]);
      var r := DropFree(s[1..]);
      ActivesPrepend(s[0], r);
      if s[0].kind.IsFree() {
        assert DropFree(s) == r;
      } else {
        assert DropFree(s) == [s[0]] + r;
      }
    }
  }

  lemma ActivesRemoveInactive(s: seq<Part>, k: nat)
    requires k < |s| && !s[k].kind.Active()
    ensures Actives(RemoveAt(s, k)) == Actives(s)
  {
    hide Actives;
    ActivesConcat(s[..k], s[k + 1..]);
    assert s == s[..k] + ([s[k]] + s[k + 1..]);
    ActivesConcat(s[..k], [s[k]] + s[k + 1..]);
    ActivesPrepend(s[k], s[k + 1..]);
  }

  /** Partitions of `core` with metadata between them. */
  ghost predicate Undressing(d: Disk, core: Disk) {
    && d.len == core.len && d.clobber == core.clobber && d.mode == core.mode
    && Actives(d.prims) == core.prims && Actives(d.logs) == core.logs
    && NoFreeIn(d.prims) && NoFreeIn(d.logs)
    && (!HasExt(d) ==> d.logs == [])
  }

  lemma UndressingNums(d: Disk, core: Disk, env: Env)
    requires Undressing(d, core) && Sound(core, env)
    ensures CleanNums(d, env, |core.logs|)
  {
    hide Actives, PrimNums, LogNums, Level;
    ActivesOfActives(core.prims);
    ActivesOfActives(core.logs);
    NoFreeBlank(d.prims);
    NoFreeBlank(d.logs);
    PrimNumsLift(d.prims, MaxPrimaries(env));
    LogicalLift(d.logs, core);
    LogNumsLift(d.logs, |core.logs|);
    if env.scheme.Bsd? { SameExt(d.prims, core.prims); BsdFlat(core, env); }
  }

  lemma BsdFlat(core: Disk, env: Env)
    requires Sound(core, env) && env.scheme.Bsd?
    ensures !HasExt(core)
  {
  }

  lemma LogicalLift(s: seq<Part>, core: Disk)
    requires Core(core) && Actives(s) == core.logs
    ensures ActiveAreLogical(s)
  {
    forall k | 0 <= k < |s| && s[k].kind.Active() ensures s[k].kind == Logical {
      ActPosFacts(s, k);
      assert core.logs[ActPos(s, k)].kind.Active();
    }
  }

  lemma {:induction false} DropMetaUndresses(d: Disk, core: Disk, env: Env)
    requires Undressing(d, core) && Sound(core, env)
    ensures DropMeta(d, env) == core
    decreases |d.prims| + |d.logs|
  {
    hide Actives, Sound, Traversal, EnumerateAll;
    TraversalOk(d);
    var ref := FirstMeta(d, Traversal(d));
    if ref.None? {
      NoMetaLeft(d);
      ActivesOfActives(d.prims);
      ActivesOfActives(d.logs);
    } else {
      TraversalMember(d, ref.value);
      var d' := RawRemove(d, ref.value);
      RemoveUndresses(d, core, ref.value);
      UndressingNums(d', core, env);
      EnumerateStable(d', env, |core.logs|);
      DropMetaUndresses(d', core, env);
    }
  }

  lemma NoMetaLeft(d: Disk)
    requires NoFreeIn(d.prims) && NoFreeIn(d.logs) && (!HasExt(d) ==> d.logs == [])
    requires forall i :: 0 <= i < |Traversal(d)| ==> RefOk(d, Traversal(d)[i])
    requires FirstMeta(d, Traversal(d)).None?
    ensures AllActive(d.prims) && AllActive(d.logs)
  {
    hide Traversal;
    forall i | 0 <= i < |d.prims| ensures d.prims[i].kind.Active() {
      TraversalVisitsAll(d, Prim(i));
      assert !PartAt(d, Prim(i)).kind.IsMeta();
    }
    forall i | 0 <= i < |d.logs| ensures d.logs[i].kind.Active() {
      TraversalVisitsAll(d, Log(i));
      assert !PartAt(d, Log(i)).kind.IsMeta();
    }
  }

  lemma RemoveUndresses(d: Disk, core: Disk, ref: Ref)
    requires Undressing(d, core) && RefOk(d, ref) && PartAt(d, ref).kind.IsMeta()
    ensures Undressing(RawRemove(d, ref), core)
  {
    hide Actives;
    match ref
    case Prim(k) =>
      ActivesRemoveInactive(d.prims, k);
      RemoveNoFree(d.prims, k);
      SameExt(RemoveAt(d.prims, k), d.prims);
    case Log(k) =>
      ActivesRemoveInactive(d.logs, k);
      RemoveNoFree(d.logs, k);
  }

  lemma RemoveNoFree(s: seq<Part>, k: nat)
    requires NoFreeIn(s) && k < |s|
    ensures NoFreeIn(RemoveAt(s, k))
  {
  }

  /** `d` holds the partitions of `core`, whatever its placeholders look like. */
  ghost predicate Holds(d: Disk, core: Disk) {
    && d.mode == 0 && d.len == core.len && d.clobber == core.clobber
    && Actives(d.prims) == core.prims && Actives(d.logs) == core.logs
    && Blank(d.prims) && Blank(d.logs)
    && (!HasExt(d) ==> d.logs == [])
  }

  lemma CompleteHolds(d: Disk, core: Disk)
    requires Complete(d, core)
    ensures Holds(d, core)
  {
  }

  /** Entering update mode gives back the table, whatever the placeholders. */
  lemma PushRestores(d: Disk, core: Disk, env: Env)
    requires Holds(d, core) && Sound(core, env) && core.mode == 1
    ensures Push(d, env) == core && HasExt(d) == HasExt(core)
  {
    hide Actives, Sound, NoFreeIn, DropMeta, Blank;
    DropFreeFacts(d.prims);
    DropFreeFacts(d.logs);
    var d1 := d.(prims := DropFree(d.prims), logs := DropFree(d.logs), mode := 1);
    SameExt(d1.prims, d.prims);
    if d.logs == [] { assert DropFree(d.logs) == []; }
    DropMetaUndresses(d1, core, env);
    CoreActives(core, env);
    SameExt(d.prims, core.prims);
  }

  lemma CoreActives(core: Disk, env: Env)
    requires Sound(core, env)
    ensures Actives(core.prims) == core.prims && Actives(core.logs) == core.logs
  {
    ActivesOfActives(core.prims);
    ActivesOfActives(core.logs);
  }

  /** Leaving and re-entering update mode is the identity on sound tables. */
  lemma PopThenPush(d: Disk, env: Env)
    requires Sound(d, env) && env.Valid() && d.mode == 1
    ensures Pop(d, env).Ret? && Push(Pop(d, env).value, env) == d
  {
    hide Pop, Push, Complete, Holds, Sound;
    PopComplete(d, env);
    CompleteHolds(Pop(d, env).value, d);
    PushRestores(Pop(d, env).value, d, env);
  }

  // ---- leaving update mode on any table ---------------------------------------------------------

  /** Partitions of `core`, metadata between them, nothing else; in any order. */
  ghost predicate Keeps(d: Disk, core: Disk) {
    && d.len == core.len && d.clobber == core.clobber && d.mode == core.mode
    && Actives(d.prims) == core.prims && Actives(d.logs) == core.logs
    && NoFree(d) && HasExt(d) == HasExt(core) && (!HasExt(d) ==> d.logs == [])
  }

  lemma AddMetaKeeps(d: Disk, core: Disk, kind: Kind, start: int, end: int)
    requires Keeps(d, core) && kind.IsMeta()
    ensures Keeps(AddMetaThen(d, kind, start, end).disk, core)
    ensures HasExt(AddMetaThen(d, kind, start, end).disk) == HasExt(d)
  {
    hide Actives, Insert, NoFreeIn, ExtIndex;
    var p := Placeholder(kind, start, end);
    InsertNoFree(d.logs, p);
    InsertNoFree(d.prims, p);
    ActivesInsertInactive(d.logs, p);
    ActivesInsertInactive(d.prims, p);
    SameExt(Insert(d.prims, p), d.prims);
  }

  lemma {:induction false} AddLogMetasKeep(d: Disk, core: Disk, env: Env, i: int)
    requires Keeps(d, core) && env.Valid() && HasExt(d)
    ensures var r := AddLogMetas(d, env, i); !r.AssertFails? ==> Keeps(r.disk, core)
    decreases MAX_TOTAL_PART + 1 - i
  {
    hide Keeps, AddMetaThen, LogMetaStart;
    var k := NumIndex(d.logs, i);
    if k >= 0 && i <= MAX_TOTAL_PART {
      var bios := env.probe(ExtPart(d));
      AddMetaKeeps(d, core, LogicalMeta, LogMetaStart(d, bios, k), d.logs[k].geom.start - 1);
      var r := AddLogMeta(d, bios, k);
      if r.Allocated? {
        AddLogMetasKeep(r.disk, core, env, i + 1);
      }
    }
  }

  lemma AddStartEndKeeps(d: Disk, env: Env, cylinderAlign: bool)
    requires Keeps(d, d) && env.Valid()
    ensures Keeps(AddStartEnd(d, env, cylinderAlign).disk, d)
  {
    hide Keeps, AddMetaThen, InitEnd, FinalStart;
    var initEnd := InitEnd(d, env);
    AddMetaKeeps(d, d, Meta, 0, initEnd);
    var r1 := AddInit(d, initEnd);
    AddMetaKeeps(r1.disk, d, Meta, FinalStart(d, env, cylinderAlign), r1.disk.len - 1);
  }

  lemma AllocMetaKeeps(d: Disk, env: Env)
    requires AllActive(d.prims) && AllActive(d.logs) && env.Valid() && (!HasExt(d) ==> d.logs == [])
    ensures var r := AllocMeta(d, env); !r.AssertFails? ==> Keeps(r.disk, d)
  {
    hide AddMetaThen, AddStartEnd, AddLogMetas, ExtTableEnd;
    ActivesOfActives(d.prims);
    ActivesOfActives(d.logs);
    assert Keeps(d, d);
    hide Keeps;
    AddMetaKeeps(d, d, Meta, 0, 0);
    if env.scheme.Msdos? {
      AddStartEndKeeps(d, env, env.scheme.cylinderAlign);
      var r1 := AddStartEnd(d, env, env.scheme.cylinderAlign);
      if r1.Allocated? && HasExt(r1.disk) {
        AddLogMetasKeep(r1.disk, d, env, 5);
        var r2 := AddLogMetas(r1.disk, env, 5);
        if r2.Allocated? && HasExt(r2.disk) {
          AddMetaKeeps(r2.disk, d, LogicalMeta, ExtPart(r2.disk).geom.start, ExtTableEnd(r2.disk, env));
        }
      }
    }
  }

  /** Leaving update mode never loses, adds or reorders a partition, even on a table
      whose partitions overlap. */
  lemma PopHolds(d: Disk, env: Env)
    requires AllActive(d.prims) && AllActive(d.logs) && env.Valid() && d.mode == 1
    requires !HasExt(d) ==> d.logs == []
    ensures Pop(d, env).Ret? ==> Holds(Pop(d, env).value, d)
  {
    hide Actives, AllocMeta, NoFreeIn, Blank, FillFree, ExtIndex;
    AllocMetaKeeps(d, env);
    var r := AllocMeta(d, env);
    if !r.AssertFails? {
      FillHolds(r.disk.(mode := 0), d);
    }
  }

  lemma FillHolds(d: Disk, core: Disk)
    requires Keeps(d, core.(mode := 0))
    ensures Holds(AllocFree(d), core)
  {
    hide Actives, NoFreeIn, Blank, FillFree, ExtIndex, DropFree;
    DropFreeKeeps(d.prims);
    DropFreeKeeps(d.logs);
    NoFreeBlank(d.prims);
    NoFreeBlank(d.logs);
    FillKeepsActives(d.prims, -1, d.len - 1, Free);
    FillBlank(d.prims, -1, d.len - 1, Free);
    SameExt(FillFree(d.prims, -1, d.len - 1, Free), d.prims);
    if HasExt(d) {
      var ext := ExtPart(d).geom;
      FillKeepsActives(d.logs, ext.start, ext.end, LogicalFree);
      FillBlank(d.logs, ext.start, ext.end, LogicalFree);
    }
  }
}
