/** Writing an msdos table (libparted/labels/dos.c:1289-1482).  The logical
    partitions form a chain: the table of number 5 sits on the first sector of the
    extended partition, that of every other one on the first sector of the
    placeholder before it, and each table points to the next. */
module EbrWrite {
  import opened CInt
  import opened Geometry
  import opened PartList
  import opened Disk
  import opened DiskLayout
  import opened Numbering
  import opened Tiling
  import opened DiskInvariant
  import opened DosTable

  /** The sectors of the device. */
  type Image = seq<Sector>

  /** The CHS bytes of a table entry, as a function of its region; reading ignores them. */
  type ChsOf = Geom -> (RawChs, RawChs)

  function ToUint32(x: int): uint32 {
    x % 0x1_0000_0000
  }

  /** `fill_raw_part` */
  function FillRaw(p: Part, offset: int, chs: ChsOf): RawPart {
    RawPart(if p.boot then 0x80 else 0, chs(p.geom).0, p.system, chs(p.geom).1,
            ToUint32(p.geom.start - offset), ToUint32(p.geom.Length()))
  }

  /** `fill_ext_raw_part_geom` */
  function FillExt(g: Geom, offset: int, chs: ChsOf): RawPart {
    RawPart(0, chs(g).0, 0x05, chs(g).1, ToUint32(g.start - offset), ToUint32(g.Length()))
  }

  predicate HasLog(d: Disk, num: int) {
    NumIndex(d.logs, num) >= 0
  }

  function LogOf(d: Disk, num: int): Part
    requires HasLog(d, num)
  {
    d.logs[NumIndex(d.logs, num)]
  }

  /** Where the table of a logical partition goes; -1 if there is no entry before it. */
  function EbrSector(d: Disk, num: int): int
    requires HasExt(d) && HasLog(d, num)
  {
    var k := NumIndex(d.logs, num);
    if num == 5 then ExtPart(d).geom.start
    else if k == 0 then -1
    else d.logs[k - 1].geom.start
  }

  /** The table: the partition itself, and a pointer to the next table. */
  function EbrEntries(d: Disk, num: int, chs: ChsOf): (e: seq<RawPart>)
    requires HasExt(d) && HasLog(d, num)
    ensures |e| == 4
  {
    [FillRaw(LogOf(d, num), EbrSector(d, num), chs),
     if HasLog(d, num + 1)
     then FillExt(Geom(EbrSector(d, num + 1), LogOf(d, num + 1).geom.end), ExtPart(d).geom.start, chs)
     else NO_ENTRY,
     NO_ENTRY, NO_ENTRY]
  }

  /** `write_ext_table` for the partition numbered `num`; absent when a sector to be
      written does not exist. */
  function WriteExt(img: Image, d: Disk, num: int, chs: ChsOf): (r: Option<Image>)
    requires HasExt(d) && HasLog(d, num)
    ensures r.Some? ==> |r.value| == |img|
    decreases MAX_TOTAL_PART + 1 - num
  {
    var sector := EbrSector(d, num);
    if !(0 <= sector < |img|) then None
    else
      var rest := if HasLog(d, num + 1) && num < MAX_TOTAL_PART then WriteExt(img, d, num + 1, chs) else Some(img);
      if rest.None? then None
      else Some(rest.value[sector := PutTable(img[sector], EbrEntries(d, num, chs))])
  }

  /** `write_extended_partitions` */
  function WriteExtended(img: Image, d: Disk, chs: ChsOf): (r: Option<Image>)
    requires HasExt(d)
    ensures r.Some? ==> |r.value| == |img|
  {
    var sector := ExtPart(d).geom.start;
    if HasLog(d, 5) then WriteExt(img, d, 5, chs)
    else if !(0 <= sector < |img|) then None
    else Some(img[sector := PutTable(img[sector], [NO_ENTRY, NO_ENTRY, NO_ENTRY, NO_ENTRY])])
  }

  function PrimEntry(d: Disk, num: int, chs: ChsOf): RawPart {
    var k := NumIndex(d.prims, num);
    if k < 0 then NO_ENTRY else FillRaw(d.prims[k], 0, chs)
  }

  function PrimEntries(d: Disk, chs: ChsOf): (e: seq<RawPart>)
    ensures |e| == 4
  {
    [PrimEntry(d, 1, chs), PrimEntry(d, 2, chs), PrimEntry(d, 3, chs), PrimEntry(d, 4, chs)]
  }

  /** `msdos_write`; `head` is the boot code and disk signature put on sector 0. */
  function WriteTable(img: Image, d: Disk, head: seq<byte>, chs: ChsOf): (r: Option<Image>)
    requires |head| == 446 && |img| > 0
    ensures r.Some? ==> |r.value| == |img|
  {
    var rest := if HasExt(d) then WriteExtended(img, d, chs) else Some(img);
    if rest.None? then None
    else
      var s: Sector := head + img[0][446..];
      Some(rest.value[0 := PutTable(s, PrimEntries(d, chs))])
  }

  // ---- where the tables are ---------------------------------------------------------------

  /** What the chain of `n` tables relies on. */
  ghost predicate Chained(d: Disk, n: nat) {
    && HasExt(d)
    && (forall m :: 5 <= m <= 4 + n ==> HasLog(d, m))
    && (forall m :: m > 4 + n ==> !HasLog(d, m))
    && (forall m :: 5 <= m <= 4 + n ==> ExtPart(d).geom.start <= EbrSector(d, m) < LogOf(d, m).geom.start <= ExtPart(d).geom.end)
    && (forall m :: 5 < m <= 4 + n ==> ExtPart(d).geom.start < EbrSector(d, m))
    && (forall m, m' :: 5 <= m < m' <= 4 + n ==> EbrSector(d, m) != EbrSector(d, m'))
  }

  lemma NumIndexHits(s: seq<Part>, n: int, m: int)
    requires LogNums(s, n)
    ensures NumIndex(s, m) >= 0 && m >= 5 ==> s[NumIndex(s, m)].kind == Logical && s[NumIndex(s, m)].num == m && m <= 4 + n
    ensures 5 <= m <= 4 + n ==> NumIndex(s, m) >= 0
  {
    if 5 <= m <= 4 + n { assert NumIn(s, m); }
  }

  /** Outside update mode the tables are all in place and on distinct sectors. */
  lemma TablesChained(d: Disk, core: Disk, env: Env)
    requires Complete(d, core) && Sound(core, env) && env.scheme.Msdos? && HasExt(d)
    ensures LogNums(d.logs, |core.logs|)
    ensures Chained(d, |core.logs|)
  {
    hide Actives, Tiles, AllTables, Blank, Sound, LogNums, TilesExt;
    var n, ext := |core.logs|, ExtPart(d).geom;
    DecoratedNums(d, core, env);
    LogsOrdered(d, core);
    forall m | m >= 5 || m > 4 + n
      ensures HasLog(d, m) <==> m <= 4 + n
      ensures HasLog(d, m) ==> ext.start <= EbrSector(d, m) < LogOf(d, m).geom.start <= ext.end
      ensures HasLog(d, m) && m > 5 ==> ext.start < EbrSector(d, m)
    {
      NumIndexHits(d.logs, n, m);
      if HasLog(d, m) { TableBefore(d, core, env, m); }
    }
    forall m, m' | 5 <= m < m' <= 4 + n ensures EbrSector(d, m) != EbrSector(d, m') {
      NumIndexHits(d.logs, n, m);
      NumIndexHits(d.logs, n, m');
      TableBefore(d, core, env, m');
      if m > 5 { TablesDiffer(d, core, env, m, m'); }
    }
  }

  lemma DecoratedNums(d: Disk, core: Disk, env: Env)
    requires Complete(d, core) && Sound(core, env)
    ensures LogNums(d.logs, |core.logs|)
  {
    hide Actives, LogNums, PrimNums, Level, Tiles, TilesExt, AllTables, Blank;
    CoreActives(core, env);
    LogicalLift(d.logs, core);
    LogNumsLift(d.logs, |core.logs|);
  }

  lemma LogsOrdered(d: Disk, core: Disk)
    requires Complete(d, core) && HasExt(d)
    ensures Ordered(d.logs) && Within(d.logs, ExtPart(d).geom.start, ExtPart(d).geom.end)
  {
    var ext := ExtPart(d).geom;
    TilesOrdered(d.logs, if d.logs != [] && d.logs[0].geom.start == ext.start then ext.start else ext.start + 1, ext.end);
  }

  lemma TableBefore(d: Disk, core: Disk, env: Env, m: int)
    requires Complete(d, core) && Sound(core, env) && env.scheme.Msdos? && HasExt(d)
    requires LogNums(d.logs, |core.logs|) && m >= 5 && HasLog(d, m)
    ensures ExtPart(d).geom.start <= EbrSector(d, m) < LogOf(d, m).geom.start <= ExtPart(d).geom.end
    ensures m > 5 ==> ExtPart(d).geom.start < EbrSector(d, m)
    ensures m > 5 ==> var k := NumIndex(d.logs, m); k > 0 && d.logs[k - 1].kind == LogicalMeta
  {
    hide Actives, Tiles, TilesExt, Blank;
    LogsOrdered(d, core);
    NumIndexHits(d.logs, |core.logs|, m);
    var k := NumIndex(d.logs, m);
    assert d.logs[k].geom.Valid();
    if m > 5 {
      assert HasTable(d.logs, ExtPart(d).geom, k);
      assert d.logs[k - 1].geom.Valid();
    } else {
      LogPastStart(d, core, env, k);
    }
  }

  /** No partition sits on the first sector of the extended partition. */
  lemma LogPastStart(d: Disk, core: Disk, env: Env, k: nat)
    requires Complete(d, core) && Sound(core, env) && env.scheme.Msdos? && HasExt(d)
    requires k < |d.logs| && d.logs[k].kind == Logical
    ensures d.logs[k].geom.start > ExtPart(d).geom.start
  {
    hide Actives, Tiles, TilesExt, Blank, AllTables, PrimNums, LogNums;
    var ext := ExtPart(core).geom;
    ActPosFacts(d.logs, k);
    GapsOf(core);
    LevelOrdered(core.logs, ext.start, ext.end, true);
    GapsSpaced(core.logs, ext);
  }

  lemma TablesDiffer(d: Disk, core: Disk, env: Env, m: int, m': int)
    requires Complete(d, core) && Sound(core, env) && env.scheme.Msdos? && HasExt(d)
    requires LogNums(d.logs, |core.logs|) && 5 < m < m' && HasLog(d, m) && HasLog(d, m')
    ensures EbrSector(d, m) != EbrSector(d, m')
  {
    hide Actives, Tiles, TilesExt, Blank, AllTables, Sound;
    LogsOrdered(d, core);
    TableBefore(d, core, env, m);
    TableBefore(d, core, env, m');
    NumIndexHits(d.logs, |core.logs|, m);
    NumIndexHits(d.logs, |core.logs|, m');
    var j, k := NumIndex(d.logs, m), NumIndex(d.logs, m');
    assert d.logs[j - 1].geom.Valid() && d.logs[k - 1].geom.Valid();
    if j < k { assert d.logs[j - 1].geom.end < d.logs[k - 1].geom.start; }
    else { assert d.logs[k - 1].geom.end < d.logs[j - 1].geom.start; }
  }

  /** No table sector lies in a partition. */
  lemma TablesOutside(d: Disk, core: Disk, env: Env, m: int, k: nat)
    requires Complete(d, core) && Sound(core, env) && env.scheme.Msdos? && HasExt(d)
    requires m >= 5 && HasLog(d, m) && k < |core.logs|
    ensures !core.logs[k].geom.Contains(EbrSector(d, m))
  {
    hide Actives, Tiles, TilesExt, Blank, AllTables, Sound, LogNums;
    DecoratedNums(d, core, env);
    LogsOrdered(d, core);
    TableBefore(d, core, env, m);
    var i := ActIndex(d.logs, k);
    ActiveIsLogical(d, core, env, i);
    LogPastStart(d, core, env, i);
    var j := NumIndex(d.logs, m);
    if m > 5 {
      assert d.logs[j - 1].geom.Valid() && d.logs[i].geom.Valid();
      if i < j - 1 { assert d.logs[i].geom.end < d.logs[j - 1].geom.start; }
      if j - 1 < i { assert d.logs[j - 1].geom.end < d.logs[i].geom.start; }
    }
  }

  /** Nor in a primary partition other than the extended one. */
  lemma TablesOffPrimaries(d: Disk, core: Disk, env: Env, m: int, k: nat)
    requires Complete(d, core) && Sound(core, env) && env.scheme.Msdos? && HasExt(d)
    requires m >= 5 && HasLog(d, m) && k < |core.prims| && core.prims[k].kind != Extended
    ensures !core.prims[k].geom.Contains(EbrSector(d, m))
  {
    hide Actives, Tiles, TilesExt, Blank, AllTables, LogNums, PrimNums, EbrSector;
    DecoratedNums(d, core, env);
    TableBefore(d, core, env, m);
    var e := ExtIndex(core.prims);
    if k < e { assert core.prims[k].geom.end < core.prims[e].geom.start; }
    else { assert core.prims[e].geom.end < core.prims[k].geom.start; }
  }

  lemma ActiveIsLogical(d: Disk, core: Disk, env: Env, i: nat)
    requires Complete(d, core) && Sound(core, env) && i < |d.logs| && d.logs[i].kind.Active()
    ensures d.logs[i].kind == Logical
  {
    LogicalLift(d.logs, core);
  }

  // ---- what is on the device afterwards -----------------------------------------------------

  /** The table of each logical partition from `num` on is on its sector. */
  ghost predicate Written(img: Image, img': Image, d: Disk, num: int, n: nat, chs: ChsOf)
    requires Chained(d, n) && num >= 5 && ExtPart(d).geom.Valid()
  {
    && |img'| == |img|
    && (forall m :: num <= m <= 4 + n ==>
          EbrSector(d, m) < |img| && img'[EbrSector(d, m)] == PutTable(img[EbrSector(d, m)], EbrEntries(d, m, chs)))
    && (forall i :: 0 <= i < |img| && (forall m :: num <= m <= 4 + n ==> EbrSector(d, m) != i) ==> img'[i] == img[i])
  }

  lemma {:induction false} WriteExtWrites(img: Image, d: Disk, num: int, n: nat, chs: ChsOf)
    requires Chained(d, n) && 5 <= num <= 4 + n <= MAX_TOTAL_PART && ExtPart(d).geom.Valid() && ExtPart(d).geom.end < |img|
    ensures WriteExt(img, d, num, chs).Some? && Written(img, WriteExt(img, d, num, chs).value, d, num, n, chs)
    decreases MAX_TOTAL_PART + 1 - num
  {
    hide EbrEntries, PutTable, Written, EbrSector;
    ChainAt(d, n, num);
    if num < 4 + n {
      WriteExtWrites(img, d, num + 1, n, chs);
      WriteOne(img, WriteExt(img, d, num + 1, chs).value, d, num, n, chs);
    } else {
      assert Written(img, img, d, num + 1, n, chs) by { NothingWritten(img, d, num + 1, n, chs); }
      WriteOne(img, img, d, num, n, chs);
    }
  }

  lemma ChainAt(d: Disk, n: nat, num: int)
    requires Chained(d, n) && 5 <= num <= 4 + n
    ensures HasLog(d, num) && (HasLog(d, num + 1) <==> num < 4 + n)
    ensures ExtPart(d).geom.start <= EbrSector(d, num) <= ExtPart(d).geom.end
  {
  }

  lemma NothingWritten(img: Image, d: Disk, num: int, n: nat, chs: ChsOf)
    requires Chained(d, n) && num > 4 + n && num >= 5 && ExtPart(d).geom.Valid()
    ensures Written(img, img, d, num, n, chs)
  {
  }

  /** Writing one more table leaves the later ones alone. */
  lemma WriteOne(img: Image, rest: Image, d: Disk, num: int, n: nat, chs: ChsOf)
    requires Chained(d, n) && 5 <= num <= 4 + n && ExtPart(d).geom.Valid() && ExtPart(d).geom.end < |img|
    requires Written(img, rest, d, num + 1, n, chs)
    ensures var sector := EbrSector(d, num);
            && 0 <= sector < |img| == |rest|
            && Written(img, rest[sector := PutTable(img[sector], EbrEntries(d, num, chs))], d, num, n, chs)
  {
    hide EbrEntries, PutTable, EbrSector, HasLog;
    ChainAt(d, n, num);
  }

  /** Sector 0 holds the primary entries and the chain holds the logical ones. */
  lemma WriteTableWrites(img: Image, d: Disk, n: nat, head: seq<byte>, chs: ChsOf)
    requires |head| == 446 && |img| > 0
    requires HasExt(d) ==> Chained(d, n) && n <= MAX_TOTAL_PART - 4 && ExtPart(d).geom.Valid()
                           && 1 <= ExtPart(d).geom.start && ExtPart(d).geom.end < |img|
    ensures var r := WriteTable(img, d, head, chs);
            && r.Some?
            && (exists s: Sector :: r.value[0] == PutTable(s, PrimEntries(d, chs)))
            && (HasExt(d) ==> forall m :: 5 <= m <= 4 + n ==>
                  r.value[EbrSector(d, m)] == PutTable(img[EbrSector(d, m)], EbrEntries(d, m, chs)))
            && (HasExt(d) && n == 0 ==>
                  r.value[ExtPart(d).geom.start] == PutTable(img[ExtPart(d).geom.start], [NO_ENTRY, NO_ENTRY, NO_ENTRY, NO_ENTRY]))
  {
    hide EbrEntries, PutTable, PrimEntries, WriteExt;
    if HasExt(d) && n > 0 {
      assert HasLog(d, 5);
      WriteExtWrites(img, d, 5, n, chs);
    }
    var s: Sector := head + img[0][446..];
    assert WriteTable(img, d, head, chs).value[0] == PutTable(s, PrimEntries(d, chs));
  }
}
