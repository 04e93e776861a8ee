/** What leaving update mode produces: placeholders that never touch a partition,
    and lists that tile the device and the extended partition. */
module DiskLayout {
  import opened CInt
  import opened Geometry
  import A = Alignment
  import opened PartList
  import opened Disk

  // ---- well-formed tables -----------------------------------------------------

  ghost predicate OneExtended(s: seq<Part>) {
    forall i, j :: 0 <= i < |s| && 0 <= j < |s| && s[i].kind == Extended && s[j].kind == Extended ==> i == j
  }

  /** One level: sorted, disjoint, in bounds, and of the right kind. */
  ghost predicate Level(s: seq<Part>, lo: int, hi: int, inExtended: bool) {
    && Ordered(s) && Within(s, lo, hi)
    && forall i :: 0 <= i < |s| ==> s[i].kind.InExtended() == inExtended
  }

  /** Both levels are in order on the device, with the logical entries inside the
      one extended partition. */
  ghost predicate Laid(d: Disk) {
    && 2 <= d.len <= A.INT64_MAX
    && Level(d.prims, 0, d.len - 1, false)
    && OneExtended(d.prims)
    && (if HasExt(d) then Level(d.logs, ExtPart(d).geom.start, ExtPart(d).geom.end, true) else d.logs == [])
  }

  /** The table as it is in update mode: partitions only. */
  ghost predicate Core(d: Disk) {
    Laid(d) && AllActive(d.prims) && AllActive(d.logs)
  }

  /** The sector kept free before a logical partition other than number 5, for its
      partition table; sector 0 of the extended partition holds the first one. */
  ghost predicate GapBefore(s: seq<Part>, ext: Geom, k: nat)
    requires k < |s|
  {
    s[k].geom.start >= (if k == 0 then ext.start + 1 else s[k - 1].geom.end + 1) + Not5(s[k].num)
  }

  ghost predicate Gapped(d: Disk) {
    HasExt(d) ==> forall k :: 0 <= k < |d.logs| ==> GapBefore(d.logs, ExtPart(d).geom, k)
  }

  /** What the label asks of the places of partitions: sector 0 holds the label
      itself, and msdos keeps room for the tables of its logical partitions. */
  ghost predicate Placed(d: Disk, env: Env) {
    && StartsFrom1(d.prims) && InLimits(d.prims) && InLimits(d.logs)
    && match env.scheme
       case Bsd => d.logs == [] && AllNormal(d.prims)
       case Msdos(_) => Gapped(d)
  }

  /** Start and length fit the 32-bit fields of the label. */
  predicate Fits32(g: Geom) {
    g.start <= UINT32_MAX && g.Length() <= UINT32_MAX
  }

  ghost predicate InLimits(s: seq<Part>) {
    forall i :: 0 <= i < |s| ==> Fits32(s[i].geom)
  }

  ghost predicate StartsFrom1(s: seq<Part>) {
    forall i :: 0 <= i < |s| ==> s[i].geom.start >= 1
  }

  ghost predicate AllNormal(s: seq<Part>) {
    forall i :: 0 <= i < |s| ==> s[i].kind == Normal
  }

  /** `d` is `core` with placeholders added. */
  ghost predicate Dresses(d: Disk, core: Disk) {
    && Laid(d) && d.len == core.len && d.clobber == core.clobber
    && Actives(d.prims) == core.prims && Actives(d.logs) == core.logs
    && HasExt(d) == HasExt(core)
    && (HasExt(core) ==> ExtPart(d) == ExtPart(core))
  }

  ghost predicate NoFree(d: Disk) {
    NoFreeIn(d.prims) && NoFreeIn(d.logs)
  }

  // ---- adding a placeholder ----------------------------------------------------

  lemma ExtIs(s: seq<Part>, k: nat)
    requires OneExtended(s) && k < |s| && s[k].kind == Extended
    ensures ExtIndex(s) == k
  {
  }

  /** Inserting anything but an extended partition leaves the extended one. */
  lemma ExtAfterInsert(s: seq<Part>, p: Part)
    requires OneExtended(s) && p.kind != Extended
    ensures OneExtended(Insert(s, p))
    ensures (ExtIndex(Insert(s, p)) >= 0) == (ExtIndex(s) >= 0)
    ensures ExtIndex(s) >= 0 ==> Insert(s, p)[ExtIndex(Insert(s, p))] == s[ExtIndex(s)]
  {
    hide Insert, InsertPoint, ExtIndex;
    InsertEntries(s, p);
    var r, k, e := Insert(s, p), InsertPoint(s, p.geom.end), ExtIndex(s);
    if e >= 0 {
      ExtIs(r, if e < k then e else e + 1);
    }
  }

  lemma InsertLevel(s: seq<Part>, p: Part, lo: int, hi: int, inExtended: bool)
    requires Level(s, lo, hi, inExtended)
    requires p.geom.Valid() && lo <= p.geom.start && p.geom.end <= hi
    requires p.kind.InExtended() == inExtended && ApartFrom(s, p.geom)
    ensures Level(Insert(s, p), lo, hi, inExtended)
  {
    hide Insert, Ordered;
    InsertOrdered(s, p);
    InsertEntries(s, p);
  }

  /** Placeholders carry no number. */
  ghost predicate Blank(s: seq<Part>) {
    forall i :: 0 <= i < |s| && !s[i].kind.Active() ==> s[i].num == UNNUMBERED
  }

  /** Partitions and metadata only, the latter without numbers. */
  ghost predicate NoFreeIn(s: seq<Part>) {
    forall i :: 0 <= i < |s| ==> s[i].kind.Active() || (s[i].kind.IsMeta() && s[i].num == UNNUMBERED)
  }

  lemma InsertNoFree(s: seq<Part>, p: Part)
    requires NoFreeIn(s) && p.kind.IsMeta() && p.num == UNNUMBERED
    ensures NoFreeIn(Insert(s, p))
  {
    hide Insert;
    InsertEntries(s, p);
  }

  /** A placeholder apart from its level's entries keeps everything in place. */
  lemma AddMetaDresses(d: Disk, core: Disk, kind: Kind, start: int, end: int)
    requires Dresses(d, core) && NoFree(d) && kind.IsMeta() && 0 <= start <= end
    requires ApartFrom(if kind.InExtended() then d.logs else d.prims, Geom(start, end))
    ensures var r := AddMeta(d, kind, start, end);
            r.Some? ==> Dresses(r.value, core) && NoFree(r.value) && r.value.mode == d.mode
  {
    hide Insert, Level, Actives, NoFreeIn, OneExtended, ApartFrom;
    var p := Placeholder(kind, start, end);
    if AddMeta(d, kind, start, end).Some? {
      if kind.InExtended() {
        InsertLevel(d.logs, p, ExtPart(d).geom.start, ExtPart(d).geom.end, true);
        InsertNoFree(d.logs, p);
        ActivesInsertInactive(d.logs, p);
      } else {
        InsertLevel(d.prims, p, 0, d.len - 1, false);
        InsertNoFree(d.prims, p);
        ActivesInsertInactive(d.prims, p);
        ExtAfterInsert(d.prims, p);
      }
    }
  }

  // ---- the msdos placeholders at both ends of the disk ---------------------------

  /** In update mode the ends searched for are those of the first and last entry. */
  lemma {:induction false} FirstStartFacts(d: Disk)
    requires Core(d)
    ensures FirstStart(d.prims) == if d.prims == [] then None else Some(d.prims[0].geom.start)
    ensures LastEnd(d.prims) == if d.prims == [] then None else Some(d.prims[|d.prims| - 1].geom.end)
  {
  }

  lemma AddStartEndDresses(d: Disk, env: Env, cylinderAlign: bool)
    requires Core(d) && env.Valid() && StartsFrom1(d.prims)
    ensures var r := AddStartEnd(d, env, cylinderAlign);
            DressedAlike(r, d) && (HasExt(d) ==> r.Allocated?)
  {
    hide Level, NoFreeIn, OneExtended, Insert;
    CoreDressesItself(d);
    FirstStartFacts(d);
    FinalStartFacts(d, env, cylinderAlign);
    var initEnd := InitEnd(d, env);
    AddInitDresses(d, initEnd);
    ExtNotLast(d);
    var r1 := AddInit(d, initEnd);
    if r1.Allocated? {
      var finalStart := FinalStart(d, env, cylinderAlign);
      if finalStart < d.len - 1 && initEnd < finalStart { FinalApart(d, r1.disk, initEnd, finalStart); }
      AddFinalDresses(d, r1.disk, initEnd, finalStart);
    }
  }

  ghost predicate DressedAlike(r: Alloc, d: Disk) {
    !r.AssertFails? && Dresses(r.disk, d) && NoFree(r.disk) && r.disk.mode == d.mode && r.disk.logs == d.logs
  }

  lemma AddInitDresses(d: Disk, initEnd: int)
    requires Core(d) && (d.prims != [] ==> initEnd < d.prims[0].geom.start)
    ensures var r := AddInit(d, initEnd);
            DressedAlike(r, d)
            && (r.disk == d || r.disk.prims == Insert(d.prims, Placeholder(Meta, 0, initEnd)))
            && (d.prims != [] && d.prims[0].geom.start >= 1 ==> r.Allocated?)
  {
    hide Level, NoFreeIn, OneExtended, Insert, Actives, AllActive, ApartFrom;
    CoreDressesItself(d);
    FirstIsLeast(d);
    if 0 < initEnd {
      InitApart(d, initEnd);
      AddMetaDresses(d, d, Meta, 0, initEnd);
    }
  }

  lemma FirstIsLeast(d: Disk)
    requires Laid(d)
    ensures HasExt(d) ==> ExtPart(d).geom.start >= d.prims[0].geom.start
    ensures d.prims != [] ==> d.prims[0].geom.start < d.len
  {
  }

  lemma AddFinalDresses(d: Disk, d1: Disk, initEnd: int, finalStart: int)
    requires Laid(d) && DressedAlike(Allocated(d1), d) && 0 <= finalStart
    requires finalStart < d.len - 1 && initEnd < finalStart ==> ApartFrom(d1.prims, Geom(finalStart, d.len - 1))
    ensures DressedAlike(AddFinal(d1, initEnd, finalStart), d)
    ensures HasExt(d) && ExtPart(d).geom.end < finalStart ==> AddFinal(d1, initEnd, finalStart).Allocated?
  {
    hide Level, NoFreeIn, ApartFrom, OneExtended, Actives, ExtIndex, Insert;
    if finalStart < d.len - 1 && initEnd < finalStart {
      AddMetaDresses(d1, d, Meta, finalStart, d.len - 1);
    }
  }

  lemma ExtNotLast(d: Disk)
    requires Laid(d)
    ensures HasExt(d) ==> ExtPart(d).geom.end <= d.prims[|d.prims| - 1].geom.end
  {
  }

  lemma CoreDressesItself(d: Disk)
    requires Core(d)
    ensures Dresses(d, d) && NoFree(d)
  {
    ActivesOfActives(d.prims);
    ActivesOfActives(d.logs);
  }

  lemma InitApart(d: Disk, initEnd: int)
    requires Laid(d) && (d.prims != [] ==> initEnd < d.prims[0].geom.start)
    ensures ApartFrom(d.prims, Geom(0, initEnd))
  {
    assert forall i :: 0 <= i < |d.prims| ==> d.prims[0].geom.start <= d.prims[i].geom.start;
  }

  lemma FinalStartFacts(d: Disk, env: Env, cylinderAlign: bool)
    requires Core(d) && env.Valid()
    ensures FinalStart(d, env, cylinderAlign) >= 0
    ensures FinalStart(d, env, cylinderAlign) < d.len - 1 && d.prims != [] ==>
              d.prims[|d.prims| - 1].geom.end < FinalStart(d, env, cylinderAlign)
  {
    CylinderPositive(env.bios);
    RoundDownNonNeg(d.len, env.bios.CylinderSize());
    FirstStartFacts(d);
  }

  lemma RoundDownNonNeg(n: int, g: int)
    requires n >= 0 && g > 0
    ensures 0 <= A.RoundDownTo(n, g) <= n
  {
    A.RoundDownMeaning(n, g);
    var r := A.RoundDownTo(n, g);
    if r < 0 { MultiplesApart(r, 0, g); }
  }

  lemma FinalApart(d: Disk, d1: Disk, initEnd: int, finalStart: int)
    requires Laid(d) && 0 <= finalStart < d.len - 1 && initEnd < finalStart
    requires d.prims != [] ==> d.prims[|d.prims| - 1].geom.end < finalStart
    requires d1 == d || d1.prims == Insert(d.prims, Placeholder(Meta, 0, initEnd))
    ensures ApartFrom(d1.prims, Geom(finalStart, d.len - 1))
  {
    InsertEntries(d.prims, Placeholder(Meta, 0, initEnd));
    assert forall i :: 0 <= i < |d.prims| ==> d.prims[i].geom.end <= d.prims[|d.prims| - 1].geom.end;
  }

  // ---- the placeholders before logical partitions --------------------------------

  /** Entry `k` has a placeholder right before it, past the first sector of the
      extended partition. */
  ghost predicate HasTable(s: seq<Part>, ext: Geom, k: nat)
    requires k < |s|
  {
    && k > 0 && s[k - 1].kind == LogicalMeta
    && s[k - 1].geom.end == s[k].geom.start - 1
    && s[k - 1].geom.start > ext.start
  }

  /** Progress of the loop at number `i`: the logical partitions below `i` have
      their placeholder, the others still have their gap. */
  ghost predicate TablesBelow(s: seq<Part>, ext: Geom, i: int) {
    forall k :: 0 <= k < |s| && s[k].kind == Logical ==>
      if s[k].num >= i then GapBefore(s, ext, k) else s[k].num != 5 ==> HasTable(s, ext, k)
  }

  lemma LogMetaFacts(d: Disk, bios: Bios, k: nat)
    requires Laid(d) && bios.Valid() && HasExt(d) && k < |d.logs|
    requires GapBefore(d.logs, ExtPart(d).geom, k)
    ensures var start := LogMetaStart(d, bios, k);
            && start >= (if k == 0 then ExtPart(d).geom.start + 1 else d.logs[k - 1].geom.end + 1)
            && start > ExtPart(d).geom.start
            && (d.logs[k].num != 5 ==> start <= d.logs[k].geom.start - 1)
  {
    CylinderPositive(bios);
    assert d.prims[ExtIndex(d.prims)].geom.Valid();
    RoundDownNonNeg(d.logs[k].geom.start - 1, bios.CylinderSize());
  }

  /** The placeholder before entry `k` goes exactly there. */
  lemma LogMetaPlace(s: seq<Part>, k: nat, start: int)
    requires Ordered(s) && k < |s| && 0 <= start < s[k].geom.start
    requires k > 0 ==> s[k - 1].geom.end < start
    ensures ApartFrom(s, Geom(start, s[k].geom.start - 1))
    ensures InsertPoint(s, s[k].geom.start - 1) == k
  {
    assert forall i :: 0 <= i < k - 1 ==> s[i].geom.end < s[k - 1].geom.start;
    InsertPointIs(s, s[k].geom.start - 1, k);
  }

  lemma AddLogMetaStep(d: Disk, core: Disk, bios: Bios, k: nat)
    requires Dresses(d, core) && NoFree(d) && bios.Valid() && HasExt(d) && k < |d.logs|
    requires GapBefore(d.logs, ExtPart(d).geom, k)
    ensures var r := AddLogMeta(d, bios, k);
            && r.Allocated? && Dresses(r.disk, core) && NoFree(r.disk) && r.disk.mode == d.mode
            && HasExt(r.disk) && ExtPart(r.disk) == ExtPart(d)
            && (if d.logs[k].num == 5 && r.disk == d then true
                else r.disk.logs == InsertAt(d.logs, k, Placeholder(LogicalMeta, LogMetaStart(d, bios, k), d.logs[k].geom.start - 1)))
  {
    hide Dresses, NoFree, InsertAt, ApartFrom, GapBefore, LogMetaStart, Laid, ExtIndex, Ordered, InsertPoint;
    DressesExt(d, core);
    assert Ordered(d.logs) by { LaidLogs(d); }
    var start, end := LogMetaStart(d, bios, k), d.logs[k].geom.start - 1;
    LogMetaFacts(d, bios, k);
    if start <= end {
      LogMetaInside(d, k);
      LogMetaPlace(d.logs, k, start);
      AddMetaDresses(d, core, LogicalMeta, start, end);
    }
  }

  lemma LogMetaInside(d: Disk, k: nat)
    requires Laid(d) && HasExt(d) && k < |d.logs|
    ensures d.logs[k].geom.start <= ExtPart(d).geom.end < d.len
    ensures 0 <= ExtPart(d).geom.start
    ensures k > 0 ==> d.logs[k - 1].geom.end < d.logs[k].geom.start
    ensures Ordered(d.logs)
  {
    assert d.prims[ExtIndex(d.prims)].geom.Valid();
    assert d.logs[k].geom.Valid();
  }

  /** Inserting the placeholder completes number `i` and disturbs no other. */
  lemma TablesStep(s: seq<Part>, ext: Geom, i: int, k: nat, m: Part)
    requires TablesBelow(s, ext, i) && k < |s| && s[k].kind == Logical && s[k].num == i
    requires forall j :: 0 <= j < |s| && s[j].kind == Logical && s[j].num == i ==> j == k
    requires m.kind == LogicalMeta && m.geom.end == s[k].geom.start - 1 && m.geom.start > ext.start
    ensures TablesBelow(InsertAt(s, k, m), ext, i + 1)
  {
    var r := InsertAt(s, k, m);
    assert forall j :: 0 <= j < |r| ==> r[j] == if j < k then s[j] else if j == k then m else s[j - 1];
    forall j | 0 <= j < |r| && r[j].kind == Logical
      ensures if r[j].num >= i + 1 then GapBefore(r, ext, j) else r[j].num != 5 ==> HasTable(r, ext, j)
    {
      var o := if j < k then j else j - 1;
      assert s[o] == r[j];
      if o != k {
        assert if s[o].num >= i then GapBefore(s, ext, o) else s[o].num != 5 ==> HasTable(s, ext, o);
      }
    }
  }

  // ---- numbers of logical partitions ----------------------------------------------

  /** The logical partitions of the list are numbered 5..4+n, each number once. */
  ghost predicate LogNums(s: seq<Part>, n: int) {
    && (forall k :: 0 <= k < |s| ==> if s[k].kind == Logical then 5 <= s[k].num <= 4 + n else s[k].num == UNNUMBERED)
    && (forall j, k | 0 <= j < k < |s| && s[j].kind == Logical && s[k].kind == Logical :: s[j].num != s[k].num)
    && (forall m :: 5 <= m <= 4 + n ==> NumIn(s, m))
  }

  lemma LogNumsInsert(s: seq<Part>, k: nat, p: Part, n: int)
    requires LogNums(s, n) && k <= |s| && p.kind != Logical && p.num == UNNUMBERED
    ensures LogNums(InsertAt(s, k, p), n)
  {
    hide InsertAt;
    var r := InsertAt(s, k, p);
    LaidOut(s, k, p);
    forall i, j | 0 <= i < j < |r| && r[i].kind == Logical && r[j].kind == Logical ensures r[i].num != r[j].num {
      var x, y := if i < k then i else i - 1, if j < k then j else j - 1;
      assert r[i] == s[x] && r[j] == s[y] && s[x].num != s[y].num;
    }
    forall m | 5 <= m <= 4 + n ensures NumIn(r, m) {
      assert NumIn(s, m);
      var j :| 0 <= j < |s| && HasNum(s[j], m);
      assert r[if j < k then j else j + 1] == s[j];
    }
  }

  lemma LaidOut(s: seq<Part>, k: nat, p: Part)
    requires k <= |s|
    ensures var r := InsertAt(s, k, p);
            && |r| == |s| + 1 && r[k] == p
            && (forall j :: 0 <= j < k ==> r[j] == s[j])
            && (forall j :: k < j < |r| ==> r[j] == s[j - 1])
  {
  }

  ghost predicate AllTables(s: seq<Part>, ext: Geom) {
    forall k :: 0 <= k < |s| && s[k].kind == Logical && s[k].num != 5 ==> HasTable(s, ext, k)
  }

  ghost predicate TablesDone(r: Alloc, core: Disk, n: int) {
    && r.Allocated? && Dresses(r.disk, core) && NoFree(r.disk) && r.disk.mode == core.mode
    && HasExt(r.disk) && LogNums(r.disk.logs, n) && AllTables(r.disk.logs, ExtPart(r.disk).geom)
  }

  /** Nothing sits on the first sector of the extended partition. */
  ghost predicate Past(s: seq<Part>, ext: Geom) {
    s != [] ==> s[0].geom.start > ext.start
  }

  lemma TablesAt(s: seq<Part>, ext: Geom, i: int, n: int)
    requires LogNums(s, n) && 5 <= i && n <= MAX_TOTAL_PART - 4 && TablesBelow(s, ext, i)
    ensures var k := NumIndex(s, i);
            if k < 0 || i > MAX_TOTAL_PART then AllTables(s, ext)
            else s[k].kind == Logical && s[k].num == i && GapBefore(s, ext, k)
  {
    hide GapBefore, HasTable;
    if NumIndex(s, i) < 0 { assert !NumIn(s, i); }
  }

  lemma LaidLogs(d: Disk)
    requires Laid(d) && HasExt(d)
    ensures Ordered(d.logs)
  {
  }

  lemma DressesExt(d: Disk, core: Disk)
    requires Dresses(d, core)
    ensures HasExt(d) <==> HasExt(core)
    ensures HasExt(d) ==> ExtPart(d) == ExtPart(core)
    ensures Laid(d)
  {
  }

  /** The loop over the logical numbers gives each partition but number 5 its
      placeholder; the assertion in it never fails. */
  lemma {:induction false} AddLogMetasTables(d: Disk, core: Disk, env: Env, i: int, n: int)
    requires Dresses(d, core) && NoFree(d) && d.mode == core.mode && env.Valid() && HasExt(d)
    requires LogNums(d.logs, n) && 5 <= i && n <= MAX_TOTAL_PART - 4
    requires TablesBelow(d.logs, ExtPart(d).geom, i) && Past(d.logs, ExtPart(d).geom)
    ensures TablesDone(AddLogMetas(d, env, i), core, n)
    ensures Past(AddLogMetas(d, env, i).disk.logs, ExtPart(core).geom)
    decreases MAX_TOTAL_PART + 1 - i
  {
    hide Dresses, NoFree, InsertAt, GapBefore, LogMetaStart, AddLogMeta, LogNums, TablesBelow, NumIndex, AllTables, Laid;
    var k := NumIndex(d.logs, i);
    TablesAt(d.logs, ExtPart(d).geom, i, n);
    DressesExt(d, core);
    if k >= 0 && i <= MAX_TOTAL_PART {
      var bios := env.probe(ExtPart(d));
      AddLogMetaStep(d, core, bios, k);
      LogMetaTables(d, bios, i, k, n);
      AddLogMetasTables(AddLogMeta(d, bios, k).disk, core, env, i + 1, n);
    }
  }

  lemma LogMetaTables(d: Disk, bios: Bios, i: int, k: nat, n: int)
    requires Laid(d) && NoFree(d) && bios.Valid() && HasExt(d) && k < |d.logs|
    requires LogNums(d.logs, n) && TablesBelow(d.logs, ExtPart(d).geom, i) && Past(d.logs, ExtPart(d).geom)
    requires d.logs[k].kind == Logical && d.logs[k].num == i
    ensures var m := Placeholder(LogicalMeta, LogMetaStart(d, bios, k), d.logs[k].geom.start - 1);
            && LogNums(InsertAt(d.logs, k, m), n)
            && TablesBelow(InsertAt(d.logs, k, m), ExtPart(d).geom, i + 1)
            && Past(InsertAt(d.logs, k, m), ExtPart(d).geom)
    ensures i == 5 ==> TablesBelow(d.logs, ExtPart(d).geom, i + 1)
  {
    hide InsertAt, Level, OneExtended, LogMetaStart;
    var m := Placeholder(LogicalMeta, LogMetaStart(d, bios, k), d.logs[k].geom.start - 1);
    LogMetaFacts(d, bios, k);
    LogNumsInsert(d.logs, k, m, n);
    TablesStep(d.logs, ExtPart(d).geom, i, k, m);
    PastInsert(d.logs, k, m, ExtPart(d).geom);
  }

  lemma PastInsert(s: seq<Part>, k: nat, p: Part, ext: Geom)
    requires Past(s, ext) && k <= |s| && p.geom.start > ext.start
    ensures Past(InsertAt(s, k, p), ext)
  {
  }

  // ---- the placeholder at the start of the extended partition -------------------------

  /** `s[0..]` shifted by one entry at the front keeps every table in place. */
  lemma TablesPrepend(s: seq<Part>, ext: Geom, p: Part)
    requires AllTables(s, ext) && p.kind != Logical
    ensures AllTables([p] + s, ext)
  {
    var r := [p] + s;
    forall k | 0 <= k < |r| && r[k].kind == Logical && r[k].num != 5 ensures HasTable(r, ext, k) {
      assert r[k] == s[k - 1];
      assert HasTable(s, ext, k - 1);
      assert r[k - 1] == s[k - 2];
    }
  }

  lemma AddExtTable(d: Disk, core: Disk, env: Env, n: int)
    requires TablesDone(Allocated(d), core, n) && env.Valid()
    requires Past(d.logs, ExtPart(d).geom)
    ensures var r := AddMetaThen(d, LogicalMeta, ExtPart(d).geom.start, ExtTableEnd(d, env));
            TablesDone(Allocated(r.disk), core, n) && !r.AssertFails?
  {
    hide Actives, NoFreeIn, OneExtended, HasTable;
    var start, end := ExtPart(d).geom.start, ExtTableEnd(d, env);
    var p := Placeholder(LogicalMeta, start, end);
    assert start >= 0 && start <= end by { assert d.prims[ExtIndex(d.prims)].geom.Valid(); }
    FrontPlace(d.logs, end);
    AddMetaDresses(d, core, LogicalMeta, start, end);
    TablesPrepend(d.logs, ExtPart(d).geom, p);
    LogNumsInsert(d.logs, 0, p, n);
    assert InsertAt(d.logs, 0, p) == [p] + d.logs;
  }

  lemma FrontPlace(s: seq<Part>, end: int)
    requires Ordered(s) && (s != [] ==> s[0].geom.start > end)
    ensures forall start :: ApartFrom(s, Geom(start, end))
    ensures InsertPoint(s, end) == 0
  {
    assert forall i :: 0 <= i < |s| ==> s[0].geom.start <= s[i].geom.start;
  }

  // ---- all placeholders --------------------------------------------------------------

  /** How a label numbers its partitions: distinct primary numbers from 1 up, and
      for msdos logical numbers exactly 5..4+n. */
  ghost predicate PrimNums(s: seq<Part>, max: int) {
    && (forall k :: 0 <= k < |s| ==> if s[k].kind.Active() then 1 <= s[k].num <= max else s[k].num == UNNUMBERED)
    && (forall j, k | 0 <= j < k < |s| && s[j].kind.Active() && s[k].kind.Active() :: s[j].num != s[k].num)
  }

  function MaxPrimaries(env: Env): int {
    if env.scheme.Bsd? then BSD_MAXPARTITIONS else DOS_N_PRI_PARTITIONS
  }

  ghost predicate Numbered(d: Disk, env: Env) {
    && PrimNums(d.prims, MaxPrimaries(env))
    && LogNums(d.logs, |Actives(d.logs)|) && |Actives(d.logs)| <= MAX_TOTAL_PART - 4
  }

  ghost predicate ActiveAreLogical(s: seq<Part>) {
    forall k :: 0 <= k < |s| && s[k].kind.Active() ==> s[k].kind == Logical
  }

  /** The invariant of a table in update mode. */
  ghost predicate Sound(d: Disk, env: Env) {
    Core(d) && Placed(d, env) && Numbered(d, env)
  }

  ghost predicate Allocates(r: Alloc, d: Disk) {
    && !r.AssertFails? && Dresses(r.disk, d) && NoFree(r.disk) && r.disk.mode == d.mode
    && (HasExt(d) ==> AllTables(r.disk.logs, ExtPart(d).geom))
  }

  /** Allocating the placeholders never fails an assertion, leaves every partition
      where it is and puts a placeholder before each logical one but number 5. */
  lemma AllocMetaDresses(d: Disk, env: Env)
    requires Sound(d, env) && env.Valid() && d.mode > 0
    ensures Allocates(AllocMeta(d, env), d)
  {
    hide Level, NoFreeIn, OneExtended, LogNums, PrimNums, AllTables, AllActive, AddStartEnd, Gapped,
         AddLogMetas, ExtTableEnd, Actives, AddMetaThen;
    CoreDressesItself(d);
    match env.scheme
    case Bsd =>
      AllocBsd(d, env);
    case Msdos(cylinderAlign) =>
      AddStartEndDresses(d, env, cylinderAlign);
      var r1 := AddStartEnd(d, env, cylinderAlign);
      if HasExt(d) {
        AllocLogical(d, r1.disk, env);
      }
  }

  lemma AllocBsd(d: Disk, env: Env)
    requires Sound(d, env) && env.Valid() && d.mode > 0 && env.scheme.Bsd?
    ensures Allocates(AllocMeta(d, env), d) && !HasExt(d)
  {
    hide NoFreeIn, Insert, Actives;
    assert !HasExt(d);
    CoreDressesItself(d);
    assert ApartFrom(d.prims, Geom(0, 0));
    AddMetaDresses(d, d, Meta, 0, 0);
  }

  lemma AllocLogical(d: Disk, d1: Disk, env: Env)
    requires Sound(d, env) && env.Valid() && env.scheme.Msdos? && HasExt(d)
    requires DressedAlike(Allocated(d1), d)
    ensures var r2 := AddLogMetas(d1, env, 5);
            && r2.Allocated? && HasExt(r2.disk)
            && Allocates(AddMetaThen(r2.disk, LogicalMeta, ExtPart(r2.disk).geom.start, ExtTableEnd(r2.disk, env)), d)
  {
    hide Actives, NoFreeIn, OneExtended, LogNums, PrimNums, AddLogMetas, ExtTableEnd;
    var n := |Actives(d.logs)|;
    GapsPending(d);
    AddLogMetasTables(d1, d, env, 5, n);
    var d2 := AddLogMetas(d1, env, 5).disk;
    AddExtTable(d2, d, env, n);
  }

  lemma GapsPending(d: Disk)
    requires Core(d) && HasExt(d) && Gapped(d) && LogNums(d.logs, |Actives(d.logs)|)
    ensures TablesBelow(d.logs, ExtPart(d).geom, 5) && Past(d.logs, ExtPart(d).geom)
  {
  }
}
