/** Reading an msdos table (libparted/labels/dos.c:1083-1255), and the round trip:
    what was written is read back. */
module EbrRead {
  import opened CInt
  import opened Geometry
  import C = Constraint
  import opened PartList
  import opened Disk
  import opened DiskLayout
  import opened Numbering
  import opened Tiling
  import opened LabelAlign
  import opened DiskOps
  import opened DiskInvariant
  import opened DosTable
  import opened EbrWrite

  /** Tables of other programs may point in circles, so reading carries a bound on
      the depth of the recursion; `OutOfFuel` is no result of the program. */
  datatype ReadResult = Done(disk: Disk) | Failed | OutOfFuel

  /** `raw_part_parse` */
  function Parse(raw: RawPart, offset: int, kind: Kind, num: int): Part {
    Part(kind, Geom(offset + raw.start, offset + raw.start + (raw.length - 1)), num, raw.kind, raw.bootInd != 0)
  }

  /** `ped_disk_add_partition` with an exact constraint; absent on failure. */
  function AddExact(d: Disk, p: Part, env: Env): Option<Disk>
    requires p.kind.Active() && p.geom.Valid() && env.Valid()
  {
    if !Ready(d, env) || d.len < 2 then None
    else
      var r := AddPartition(d, p, Some(C.Exact(p.geom, d.len)), env);
      if r.Crash? || !r.value.1 then None else Some(r.value.0)
  }

  /** `read_table` */
  function ReadTable(img: Image, d: Disk, sector: int, isExt: bool, env: Env, fuel: nat): ReadResult
    requires env.Valid()
    decreases fuel, 1, 0
  {
    if fuel == 0 then OutOfFuel
    else if !(0 <= sector < |img|) then Failed
    else
      var s := img[sector];
      if isExt && Magic(s) == PARTITION_MAGIC_MAGIC then Done(d)
      else if Magic(s) != MSDOS_MAGIC then Failed
      else
        var r := ReadParts(img, d, s, sector, isExt, 0, env, fuel);
        if !r.Done? || !isExt then r else ReadNested(img, r.disk, s, sector, 0, env, fuel)
  }

  /** The first loop: partitions from entry `i` on. */
  function ReadParts(img: Image, d: Disk, s: Sector, sector: int, isExt: bool, i: nat, env: Env, fuel: nat): ReadResult
    requires env.Valid() && sector >= 0 && fuel > 0
    decreases fuel, 0, 4 - i
  {
    if i >= 4 then Done(d)
    else
      var raw := EntryOf(s, i);
      var offset := if isExt then sector else 0;
      if raw.kind == 0 || raw.length == 0 || (isExt && IsExtendedKind(raw.kind))
      then ReadParts(img, d, s, sector, isExt, i + 1, env, fuel)
      else if offset + raw.start == sector then Failed
      else
        var kind := if isExt then Logical else if IsExtendedKind(raw.kind) then Extended else Normal;
        var p := Parse(raw, offset, kind, if isExt then UNNUMBERED else i + 1);
        var d1 := AddExact(d, p, env);
        if d1.None? then Failed
        else if kind == Extended then
          var r := ReadTable(img, d1.value, p.geom.start, true, env, fuel - 1);
          if !r.Done? then r else ReadParts(img, r.disk, s, sector, isExt, i + 1, env, fuel)
        else ReadParts(img, d1.value, s, sector, isExt, i + 1, env, fuel)
  }

  /** The second loop: nested tables from entry `i` on. */
  function ReadNested(img: Image, d: Disk, s: Sector, sector: int, i: nat, env: Env, fuel: nat): ReadResult
    requires env.Valid() && fuel > 0
    decreases fuel, 0, 4 - i
  {
    if i >= 4 then Done(d)
    else
      var raw := EntryOf(s, i);
      if !IsExtendedKind(raw.kind) then ReadNested(img, d, s, sector, i + 1, env, fuel)
      else if !HasExt(d) then Failed
      else
        var start := ExtPart(d).geom.start + raw.start;
        if start == sector then ReadNested(img, d, s, sector, i + 1, env, fuel)
        else
          var r := ReadTable(img, d, start, true, env, fuel - 1);
          if !r.Done? then r else ReadNested(img, r.disk, s, sector, i + 1, env, fuel)
  }

  // ---- part of a table ---------------------------------------------------------------------

  /** The partitions numbered up to `n`. */
  function UpTo(s: seq<Part>, n: int): seq<Part> {
    if s == [] then [] else (if s[0].num <= n then [s[0]] else []) + UpTo(s[1..], n)
  }

  lemma {:induction false} UpToIn(s: seq<Part>, n: int, p: Part)
    ensures p in UpTo(s, n) <==> p in s && p.num <= n
  {
    if s != [] {
      UpToIn(s[1..], n, p);
      assert s == [s[0]] + s[1..];
    }
  }

  lemma {:induction false} UpToConcat(s: seq<Part>, t: seq<Part>, n: int)
    ensures UpTo(s + t, n) == UpTo(s, n) + UpTo(t, n)
  {
    if s == [] {
      assert s + t == t;
    } else {
      var x := if s[0].num <= n then [s[0]] else [];
      UpToConcat(s[1..], t, n);
      assert (s + t)[0] == s[0] && (s + t)[1..] == s[1..] + t;
      assert UpTo(s + t, n) == x + (UpTo(s[1..], n) + UpTo(t, n));
      assert x + (UpTo(s[1..], n) + UpTo(t, n)) == (x + UpTo(s[1..], n)) + UpTo(t, n);
    }
  }

  /** Passing a number that nobody has changes nothing. */
  lemma {:induction false} UpToSkip(s: seq<Part>, n: int)
    requires forall i :: 0 <= i < |s| ==> s[i].num != n + 1
    ensures UpTo(s, n + 1) == UpTo(s, n)
  {
    if s != [] { UpToSkip(s[1..], n); }
  }

  lemma {:induction false} UpToNone(s: seq<Part>, n: int)
    requires forall i :: 0 <= i < |s| ==> s[i].num > n
    ensures UpTo(s, n) == []
  {
    if s != [] { UpToNone(s[1..], n); }
  }

  lemma {:induction false} UpToAll(s: seq<Part>, n: int)
    requires forall i :: 0 <= i < |s| ==> s[i].num <= n
    ensures UpTo(s, n) == s
  {
    if s != [] { UpToAll(s[1..], n); }
  }

  lemma UpToFirst(p: Part, s: seq<Part>, n: int)
    ensures UpTo([p] + s, n) == (if p.num <= n then [p] + UpTo(s, n) else UpTo(s, n))
  {
    assert ([p] + s)[1..] == s;
  }

  /** Reading the next number inserts it where it belongs. */
  lemma UpToInsert(s: seq<Part>, n: int, k: nat)
    requires Ordered(s) && k < |s| && s[k].num == n + 1
    requires forall i :: 0 <= i < |s| && i != k ==> s[i].num != n + 1
    ensures Insert(UpTo(s, n), s[k]) == UpTo(s, n + 1)
  {
    hide UpTo, InsertPoint;
    var a, b := s[..k], s[k + 1..];
    assert s == a + ([s[k]] + b);
    UpToConcat(a, [s[k]] + b, n);
    UpToConcat(a, [s[k]] + b, n + 1);
    UpToFirst(s[k], b, n);
    UpToFirst(s[k], b, n + 1);
    UpToSkip(a, n);
    UpToSkip(b, n);
    assert UpTo(s, n) == UpTo(a, n) + UpTo(b, n);
    assert UpTo(s, n + 1) == UpTo(a, n) + ([s[k]] + UpTo(b, n));
    UpToPoint(s, n, k);
  }

  lemma UpToPoint(s: seq<Part>, n: int, k: nat)
    requires Ordered(s) && k < |s|
    ensures InsertPoint(UpTo(s[..k], n) + UpTo(s[k + 1..], n), s[k].geom.end) == |UpTo(s[..k], n)|
  {
    var a, b := UpTo(s[..k], n), UpTo(s[k + 1..], n);
    forall i | 0 <= i < |a| ensures a[i].geom.start <= s[k].geom.end {
      UpToIn(s[..k], n, a[i]);
      var j :| 0 <= j < k && s[..k][j] == a[i];
      assert s[j].geom.end < s[k].geom.start && s[j].geom.Valid() && s[k].geom.Valid();
    }
    if b != [] {
      UpToIn(s[k + 1..], n, b[0]);
      var j :| 0 <= j < |s| - k - 1 && s[k + 1..][j] == b[0];
      assert s[k].geom.end < s[k + 1 + j].geom.start;
    }
    InsertPointIs(a + b, s[k].geom.end, |a|);
  }

  // ---- adding what was read ------------------------------------------------------------------

  /** A partition that joins the table is accepted under an exact constraint. */
  lemma NewPartExact(core: Disk, p: Part, q: Part, env: Env)
    requires Sound(core, env) && core.clobber && env.Valid() && Usable(core)
    requires Joins(core, q, env) && q == p.(num := q.num) && EnumNum(core, env, p) == Some(q.num)
    ensures NewPart(core, p, Some(C.Exact(p.geom, core.len)), env) == Some(q)
  {
    hide OverlapConstraint, C.Intersect, CheckPartition, EnumNum, Align, C.Exact, Sound, Joins, C.Solves;
    JoinNeedsExt(core, q, env);
    ExactOverlap(core, q, env);
    ExactChecks(core, q, env);
  }

  lemma ExactOverlap(core: Disk, q: Part, env: Env)
    requires Sound(core, env) && Joins(core, q, env) && Overlappable(core, q.kind)
    ensures C.Intersect(OverlapConstraint(core, q.kind, -1, q.geom.start), Some(C.Exact(q.geom, core.len))).Some?
  {
    hide C.Intersect, C.Exact, FreeStretch, RoomFor, Holed, LogNums, PrimNums, OneExtended;
    JoinStretch(core, q, env);
    var free := FreeStretch(core, q.kind, -1, q.geom.start).value;
    OverlapIsMax(core, q.kind, -1, q.geom.start);
    C.FromMaxMeaning(free, q.geom);
    C.ExactMeaning(q.geom, core.len, q.geom);
    C.IntersectExact(OverlapConstraint(core, q.kind, -1, q.geom.start), Some(C.Exact(q.geom, core.len)), q.geom);
  }

  lemma JoinStretch(core: Disk, q: Part, env: Env)
    requires Sound(core, env) && Joins(core, q, env) && Overlappable(core, q.kind)
    ensures var f := FreeStretch(core, q.kind, -1, q.geom.start);
            f.Some? && f.value.Encloses(q.geom)
  {
    hide Gap, RoomFor, Holed, LogNums, PrimNums, OneExtended;
    if q.kind == Logical {
      GapHolds(core.logs, q.geom, ExtPart(core).geom.start, ExtPart(core).geom.end);
    } else {
      GapHolds(core.prims, q.geom, 0, LLONG_MAX - 1);
    }
  }

  lemma ExactChecks(core: Disk, q: Part, env: Env)
    requires Sound(core, env) && Joins(core, q, env)
    ensures CheckPartition(core, q, None)
  {
    hide RoomFor, Holed, LogNums, PrimNums, OneExtended;
    if HasExt(core) && q.kind != Logical {
      assert Apart(core.prims[ExtIndex(core.prims)].geom, q.geom);
    }
  }

  lemma JoinSound(core: Disk, q: Part, env: Env)
    requires Sound(core, env) && Joins(core, q, env)
    ensures Sound(RawAdd(core, q), env)
  {
    hide Sound, Joins, Frame;
    SoundUsable(core, env);
    if q.kind == Logical { JoinLogical(core, q, env); } else { JoinPrimary(core, q, env); }
  }

  /** Adding a partition while reading gives the table with it, complete. */
  lemma AddExactJoins(d: Disk, core: Disk, p: Part, q: Part, env: Env)
    requires Holds(d, core) && Sound(core, env) && core.mode == 1 && core.clobber && env.Valid() && env.scheme.Msdos?
    requires Joins(core, q, env) && q == p.(num := q.num) && EnumNum(core, env, p) == Some(q.num)
    requires p.kind.Active() && p.geom.Valid()
    requires p.kind != Logical ==> |core.prims| + 1 <= DOS_N_PRI_PARTITIONS
    ensures var r := AddExact(d, p, env);
            && r.Some? && Complete(r.value, RawAdd(core, q)) && Holds(r.value, RawAdd(core, q))
            && Sound(RawAdd(core, q), env) && RawAdd(core, q).mode == 1
  {
    hide Sound, Complete, NewPart, EnumNum, C.Exact, Pop, Push, Actives, Blank;
    PushRestores(d, core, env);
    SoundUsable(core, env);
    NewPartExact(core, p, q, env);
    JoinSound(core, q, env);
    PopComplete(RawAdd(core, q), env);
    CompleteHolds(Pop(RawAdd(core, q), env).value, RawAdd(core, q));
    JoinNeedsExt(core, q, env);
    assert BasicSanity(d, p, env);
  }

  lemma JoinNeedsExt(core: Disk, q: Part, env: Env)
    requires Joins(core, q, env)
    ensures q.kind.InExtended() ==> HasExt(core)
  {
    assert q.kind.Active();
  }

  // ---- the table read so far --------------------------------------------------------------------

  /** The primary partitions up to number `i` and the logical ones up to `n`. */
  function ReadSoFar(core: Disk, i: int, n: int): Disk {
    Disk(core.len, UpTo(core.prims, i), UpTo(core.logs, n), 1, true)
  }

  lemma {:induction false} CountPrims(s: seq<Part>, max: nat)
    requires PrimNums(s, max) && AllActive(s)
    ensures |s| <= max
    decreases max
  {
    if s != [] {
      if k :| 0 <= k < |s| && s[k].num == max {
        var r := RemoveAt(s, k);
        RemoveEntries(s, k);
        assert max > 0 by { assert 1 <= s[k].num; }
        assert PrimNums(r, max - 1) && AllActive(r);
        CountPrims(r, max - 1);
      } else {
        assert max > 0 by { assert 1 <= s[0].num <= max; }
        CountPrims(s, max - 1);
      }
    }
  }

  lemma SoFarExt(core: Disk, i: int, n: int, env: Env)
    requires Sound(core, env)
    ensures var t := ReadSoFar(core, i, n);
            && (HasExt(t) <==> HasExt(core) && ExtPart(core).num <= i)
            && (HasExt(t) ==> ExtPart(t) == ExtPart(core))
  {
    var t := ReadSoFar(core, i, n);
    if HasExt(t) {
      UpToIn(core.prims, i, ExtPart(t));
      var k :| 0 <= k < |core.prims| && core.prims[k] == ExtPart(t);
      ExtIs(core.prims, k);
    }
    if HasExt(core) && ExtPart(core).num <= i {
      UpToIn(core.prims, i, ExtPart(core));
      var k :| 0 <= k < |t.prims| && t.prims[k] == ExtPart(core);
      assert t.prims[k].kind == Extended;
    }
  }

  /** The next primary partition joins. */
  lemma PrimJoins(core: Disk, i: int, n: int, k: nat, env: Env)
    requires Sound(core, env) && env.scheme.Msdos? && Sound(ReadSoFar(core, i, n), env)
    requires k < |core.prims| && core.prims[k].num == i + 1
    ensures Joins(ReadSoFar(core, i, n), core.prims[k], env)
    ensures RawAdd(ReadSoFar(core, i, n), core.prims[k]) == ReadSoFar(core, i + 1, n)
    ensures |ReadSoFar(core, i, n).prims| + 1 <= DOS_N_PRI_PARTITIONS
  {
    hide UpTo, LogNums, Holed, Actives, Insert, RoomFor;
    var t, q := ReadSoFar(core, i, n), core.prims[k];
    SoundUsable(t, env);
    SoFarExt(core, i, n, env);
    PrimKind(core, k);
    PrimFacts(core, k, env);
    forall j | 0 <= j < |t.prims| ensures Apart(t.prims[j].geom, q.geom) && t.prims[j].num != q.num {
      UpToIn(core.prims, i, t.prims[j]);
      var o :| 0 <= o < |core.prims| && core.prims[o] == t.prims[j];
      assert o != k;
      if o < k { assert core.prims[o].geom.end < q.geom.start; } else { assert q.geom.end < core.prims[o].geom.start; }
    }
    if q.kind == Extended { ExtIs(core.prims, k); }
    UpToInsert(core.prims, i, k);
    PrimCount(t, q, env);
  }

  lemma PrimFacts(core: Disk, k: nat, env: Env)
    requires Sound(core, env) && k < |core.prims|
    ensures var q := core.prims[k];
            && q.kind.Active() && !q.kind.InExtended() && q.geom.Valid() && q.geom.end < core.len && Fits32(q.geom)
            && q.geom.start >= 1 && 1 <= q.num <= MaxPrimaries(env)
    ensures forall j :: 0 <= j < |core.prims| && j != k ==> core.prims[j].num != core.prims[k].num
    ensures Ordered(core.prims)
    ensures OneExtended(core.prims)
  {
  }

  lemma PrimCount(t: Disk, q: Part, env: Env)
    requires Sound(t, env) && Joins(t, q, env) && q.kind != Logical && env.scheme.Msdos?
    ensures |t.prims| + 1 <= DOS_N_PRI_PARTITIONS
  {
    hide Level, LogNums, Actives, OneExtended;
    InsertPrimNums(t.prims, q, DOS_N_PRI_PARTITIONS);
    InsertActive(t.prims, q);
    InsertEntries(t.prims, q);
    CountPrims(Insert(t.prims, q), DOS_N_PRI_PARTITIONS);
  }

  lemma LogFacts(core: Disk, k: nat, env: Env)
    requires Sound(core, env) && env.scheme.Msdos? && k < |core.logs|
    ensures HasExt(core) && Ordered(core.logs) && Spaced(core.logs, -1, ExtPart(core).geom)
    ensures LogNums(core.logs, |core.logs|)
    ensures var q, ext := core.logs[k], ExtPart(core).geom;
            && q.kind == Logical && q.geom.Valid() && q.geom.end < core.len && Fits32(q.geom)
            && ext.Encloses(q.geom) && q.geom.start >= ext.start + 1 + Not5(q.num)
    ensures forall j :: 0 <= j < |core.logs| && j != k ==> core.logs[j].num != core.logs[k].num
  {
    hide Actives, Spaced;
    AllLogical(core);
    SoundUsable(core, env);
    GapsOf(core);
    GapsSpaced(core.logs, ExtPart(core).geom);
    LogDistance(core, k);
    assert core.prims[ExtIndex(core.prims)].geom.Valid();
  }

  /** The logical partitions up to number `n` are `n - 4` many. */
  lemma SoFarCount(core: Disk, i: int, n: int, env: Env)
    requires Sound(core, env) && Sound(ReadSoFar(core, i, n), env) && 4 <= n <= 4 + |core.logs|
    ensures |ReadSoFar(core, i, n).logs| == n - 4
  {
    hide Sound;
    var t := ReadSoFar(core, i, n);
    if n == 4 {
      forall j | 0 <= j < |core.logs| ensures core.logs[j].num > 4 { LogNumberAt(core, env, j); }
      UpToNone(core.logs, 4);
    } else {
      var j := LogNumbered(core, env, n);
      UpToIn(core.logs, n, core.logs[j]);
      var k :| 0 <= k < |t.logs| && t.logs[k] == core.logs[j];
      LogNumberAt(t, env, k);
      var o := LogNumbered(t, env, 4 + |t.logs|);
      UpToIn(core.logs, n, t.logs[o]);
    }
  }

  lemma LogNumberAt(d: Disk, env: Env, j: nat)
    requires Sound(d, env) && j < |d.logs|
    ensures 5 <= d.logs[j].num <= 4 + |d.logs|
  {
    hide Level, PrimNums, Actives, OneExtended, Gapped;
    SoundUsable(d, env);
    AllLogical(d);
  }

  lemma LogNumbered(d: Disk, env: Env, m: int) returns (j: nat)
    requires Sound(d, env) && 5 <= m <= 4 + |d.logs|
    ensures j < |d.logs| && d.logs[j].num == m
  {
    hide Level, PrimNums, Actives, OneExtended, Gapped;
    SoundUsable(d, env);
    assert NumIn(d.logs, m);
    j :| 0 <= j < |d.logs| && HasNum(d.logs[j], m);
  }

  /** The next logical partition of the chain joins, and gets its old number. */
  lemma LogJoins(core: Disk, i: int, n: int, k: nat, env: Env)
    requires Sound(core, env) && env.scheme.Msdos? && Sound(ReadSoFar(core, i, n), env) && 4 <= n
    requires k < |core.logs| && core.logs[k].num == n + 1
    requires HasExt(core) && ExtPart(core).num <= i
    ensures Joins(ReadSoFar(core, i, n), core.logs[k], env)
    ensures RawAdd(ReadSoFar(core, i, n), core.logs[k]) == ReadSoFar(core, i, n + 1)
    ensures EnumNum(ReadSoFar(core, i, n), env, core.logs[k].(num := UNNUMBERED)) == Some(n + 1)
  {
    hide UpTo, Actives, Insert, PrimNums, Level, OneExtended, InLimits, Holed;
    var t, q, ext := ReadSoFar(core, i, n), core.logs[k], ExtPart(core).geom;
    LogFacts(core, k, env);
    SoundUsable(t, env);
    SoFarExt(core, i, n, env);
    SoFarCount(core, i, n, env);
    forall j | 0 <= j < |t.logs|
      ensures Apart(t.logs[j].geom, q.geom)
      ensures t.logs[j].geom.end + 1 + Not5(q.num) <= q.geom.start || q.geom.end + 1 + Not5(t.logs[j].num) <= t.logs[j].geom.start
    {
      UpToIn(core.logs, n, t.logs[j]);
      var o :| 0 <= o < |core.logs| && core.logs[o] == t.logs[j];
      assert o != k;
      if o < k { assert core.logs[o].geom.end + 1 + Not5(q.num) <= q.geom.start; }
      else { assert q.geom.end + 1 + Not5(core.logs[o].num) <= core.logs[o].geom.start; }
    }
    UpToInsert(core.logs, n, k);
    NextInChain(t, env);
  }

  lemma NextInChain(t: Disk, env: Env)
    requires Sound(t, env) && env.scheme.Msdos? && 5 + |t.logs| <= MAX_TOTAL_PART
    ensures NextFree(t, 5, MAX_TOTAL_PART) == 5 + |t.logs|
    ensures Holed(t.logs, |t.logs|, 5 + |t.logs|)
  {
    hide Level, OneExtended, Gapped, Actives;
    SoundUsable(t, env);
    assert !NumUsed(t, 5 + |t.logs|);
    NextLogicalNumber(t, env);
  }

  // ---- reading one table ------------------------------------------------------------------------

  predicate Skipped(raw: RawPart, isExt: bool) {
    raw.kind == 0 || raw.length == 0 || (isExt && IsExtendedKind(raw.kind))
  }

  lemma {:induction false} SkipParts(img: Image, d: Disk, s: Sector, sector: int, isExt: bool, i: nat, env: Env, fuel: nat)
    requires env.Valid() && sector >= 0 && fuel > 0 && i <= 4
    requires forall j :: i <= j < 4 ==> Skipped(EntryOf(s, j), isExt)
    ensures ReadParts(img, d, s, sector, isExt, i, env, fuel) == Done(d)
    decreases 4 - i
  {
    hide EntryOf, AddExact, ReadTable;
    if i < 4 {
      assert Skipped(EntryOf(s, i), isExt);
      SkipParts(img, d, s, sector, isExt, i + 1, env, fuel);
    }
  }

  lemma {:induction false} SkipNested(img: Image, d: Disk, s: Sector, sector: int, i: nat, env: Env, fuel: nat)
    requires env.Valid() && fuel > 0 && i <= 4
    requires forall j :: i <= j < 4 ==> !IsExtendedKind(EntryOf(s, j).kind)
    ensures ReadNested(img, d, s, sector, i, env, fuel) == Done(d)
    decreases 4 - i
  {
    hide EntryOf, ReadTable;
    if i < 4 {
      assert !IsExtendedKind(EntryOf(s, i).kind);
      SkipNested(img, d, s, sector, i + 1, env, fuel);
    }
  }

  /** An entry gives back the partition it was filled from. */
  lemma FillParse(p: Part, offset: int, chs: ChsOf, kind: Kind, num: int)
    requires p.geom.Valid() && Fits32(p.geom) && 0 <= offset <= p.geom.start && p.kind == kind
    ensures Parse(FillRaw(p, offset, chs), offset, kind, num) == p.(num := num)
    ensures FillRaw(p, offset, chs).length != 0
    ensures offset + FillRaw(p, offset, chs).start == p.geom.start
  {
  }

  /** The types a table can hold: none of the partitions looks empty, and exactly the
      extended one looks extended. */
  ghost predicate Typed(core: Disk) {
    && (forall i :: 0 <= i < |core.prims| ==> core.prims[i].system != 0
                                              && (IsExtendedKind(core.prims[i].system) <==> core.prims[i].kind == Extended))
    && (forall i :: 0 <= i < |core.logs| ==> core.logs[i].system != 0 && !IsExtendedKind(core.logs[i].system))
  }

  /** The logical part of the device holds the chain of `d`. */
  ghost predicate HoldsChain(img: Image, d: Disk, n: nat, chs: ChsOf)
    requires Chained(d, n)
  {
    forall m :: 5 <= m <= 4 + n ==>
      && 0 <= EbrSector(d, m) < |img| && Magic(img[EbrSector(d, m)]) == MSDOS_MAGIC
      && forall i :: 0 <= i < 4 ==> EntryOf(img[EbrSector(d, m)], i) == EbrEntries(d, m, chs)[i]
  }

  /** Everything known while the chain of `d` is read back. */
  ghost predicate Reading(img: Image, d: Disk, core: Disk, chs: ChsOf, env: Env) {
    && Complete(d, core) && Sound(core, env) && Typed(core) && env.Valid() && env.scheme.Msdos? && HasExt(d)
    && Chained(d, |core.logs|) && LogNums(d.logs, |core.logs|) && HoldsChain(img, d, |core.logs|, chs)
  }

  /** The partition numbered `m` among the partitions proper. */
  lemma CoreLog(d: Disk, core: Disk, env: Env, m: int) returns (k: nat)
    requires Complete(d, core) && Sound(core, env) && env.scheme.Msdos? && LogNums(d.logs, |core.logs|) && m >= 5 && HasLog(d, m)
    ensures k < |core.logs| && core.logs[k] == LogOf(d, m) && core.logs[k].num == m
  {
    hide Actives, Tiles, TilesExt, Blank, AllTables, Sound;
    NumIndexHits(d.logs, |core.logs|, m);
    ActPosFacts(d.logs, NumIndex(d.logs, m));
    k := ActPos(d.logs, NumIndex(d.logs, m));
  }

  /** The first loop on the table of number `m` adds that partition. */
  lemma ReadOwn(img: Image, d: Disk, core: Disk, chs: ChsOf, env: Env, cur: Disk, i: int, m: int, fuel: nat)
    requires Reading(img, d, core, chs, env) && 5 <= m <= 4 + |core.logs| && fuel > 0 && ExtPart(core).num <= i
    requires Holds(cur, ReadSoFar(core, i, m - 1)) && Sound(ReadSoFar(core, i, m - 1), env)
    ensures var sector := EbrSector(d, m);
            var r := ReadParts(img, cur, img[sector], sector, true, 0, env, fuel);
            r.Done? && Holds(r.disk, ReadSoFar(core, i, m)) && Sound(ReadSoFar(core, i, m), env)
  {
    hide Complete, Sound, Typed, Holds, EntryOf, AddExact, ReadTable, LogNums, FillRaw, FillExt, Parse, UpTo, Joins, EnumNum, EbrSector, LogOf,
         IsExtendedKind, Fits32;
    var sector, t := EbrSector(d, m), ReadSoFar(core, i, m - 1);
    var s := img[sector];
    var k := CoreLog(d, core, env, m);
    var q := core.logs[k];
    LogFacts(core, k, env);
    TypedLog(core, k);
    ChainFacts(d, |core.logs|, m);
    assert EntryOf(s, 0) == EbrEntries(d, m, chs)[0] == FillRaw(q, sector, chs);
    FillParse(q, sector, chs, Logical, UNNUMBERED);
    FillKind(q, sector, chs);
    LogJoins(core, i, m - 1, k, env);
    AddExactJoins(cur, t, q.(num := UNNUMBERED), q, env);
    var d1 := AddExact(cur, q.(num := UNNUMBERED), env).value;
    RestSkipped(img, d, chs, |core.logs|, m);
    SkipParts(img, d1, s, sector, true, 1, env, fuel);
  }

  lemma TypedLog(core: Disk, k: nat)
    requires Typed(core) && k < |core.logs|
    ensures core.logs[k].system != 0 && !IsExtendedKind(core.logs[k].system)
  {
  }

  lemma FillKind(q: Part, offset: int, chs: ChsOf)
    ensures FillRaw(q, offset, chs).kind == q.system
  {
  }

  lemma ChainFacts(d: Disk, n: nat, m: int)
    requires Chained(d, n) && 5 <= m <= 4 + n
    ensures ExtPart(d).geom.start <= EbrSector(d, m) < LogOf(d, m).geom.start <= ExtPart(d).geom.end
  {
  }

  lemma RestSkipped(img: Image, d: Disk, chs: ChsOf, n: nat, m: int)
    requires Chained(d, n) && HoldsChain(img, d, n, chs) && 5 <= m <= 4 + n
    ensures 0 <= EbrSector(d, m) < |img|
    ensures forall j :: 1 <= j < 4 ==> Skipped(EntryOf(img[EbrSector(d, m)], j), true)
    ensures forall j :: 2 <= j < 4 ==> !IsExtendedKind(EntryOf(img[EbrSector(d, m)], j).kind)
  {
    hide EntryOf, EbrSector;
    var e := EbrEntries(d, m, chs);
    assert e[2] == NO_ENTRY && e[3] == NO_ENTRY;
    assert Skipped(e[1], true);
  }

  // ---- the chain --------------------------------------------------------------------------------

  lemma NextPointer(d: Disk, n: nat, m: int, chs: ChsOf)
    requires Chained(d, n) && 5 <= m < 4 + n && ExtPart(d).geom.Valid() && Fits32(ExtPart(d).geom) && 0 <= ExtPart(d).geom.start
    ensures HasLog(d, m) && HasLog(d, m + 1)
    ensures var raw := EbrEntries(d, m, chs)[1];
            && IsExtendedKind(raw.kind) && ExtPart(d).geom.start + raw.start == EbrSector(d, m + 1)
    ensures EbrSector(d, m + 1) != EbrSector(d, m)
  {
    hide EbrSector, FillRaw;
    assert ExtPart(d).geom.start <= EbrSector(d, m + 1) < LogOf(d, m + 1).geom.start <= ExtPart(d).geom.end;
  }

  lemma SoFarShape(cur: Disk, core: Disk, i: int, n: int, env: Env)
    requires Holds(cur, ReadSoFar(core, i, n)) && Sound(core, env) && Sound(ReadSoFar(core, i, n), env)
    requires HasExt(core) && ExtPart(core).num <= i
    ensures HasExt(cur) && ExtPart(cur) == ExtPart(core)
  {
    hide Actives, Sound, Blank, UpTo;
    SoFarExt(core, i, n, env);
    CoreActives(ReadSoFar(core, i, n), env);
    SameExt(cur.prims, ReadSoFar(core, i, n).prims);
  }

  /** The whole chain from the table of number `m` on is read back. */
  lemma {:induction false} ReadChain(img: Image, d: Disk, core: Disk, chs: ChsOf, env: Env, cur: Disk, i: int, m: int, fuel: nat)
    requires Reading(img, d, core, chs, env) && 5 <= m <= 4 + |core.logs| && fuel > 4 + |core.logs| - m && ExtPart(core).num <= i
    requires Holds(cur, ReadSoFar(core, i, m - 1)) && Sound(ReadSoFar(core, i, m - 1), env)
    ensures var r := ReadTable(img, cur, EbrSector(d, m), true, env, fuel);
            var t := ReadSoFar(core, i, 4 + |core.logs|);
            r.Done? && Holds(r.disk, t) && Sound(t, env)
    decreases 4 + |core.logs| - m
  {
    hide Complete, Sound, Typed, Holds, EntryOf, EbrEntries, ReadParts, LogNums, UpTo, EbrSector, IsExtendedKind;
    var n, sector := |core.logs|, EbrSector(d, m);
    var s := img[sector];
    ReadOwn(img, d, core, chs, env, cur, i, m, fuel);
    RestSkipped(img, d, chs, n, m);
    var d1 := ReadParts(img, cur, s, sector, true, 0, env, fuel).disk;
    OwnNotNested(img, d, core, chs, env, m);
    assert ReadTable(img, cur, sector, true, env, fuel) == ReadNested(img, d1, s, sector, 1, env, fuel);
    if m == 4 + n {
      LastSkipped(img, d, chs, n, m);
      SkipNested(img, d1, s, sector, 1, env, fuel);
    } else {
      ExtFacts(d, core, env);
      SoFarShape(d1, core, i, m, env);
      NextPointer(d, n, m, chs);
      ReadChain(img, d, core, chs, env, d1, i, m + 1, fuel - 1);
      assert EntryOf(s, 1) == EbrEntries(d, m, chs)[1];
      SkipNested(img, ReadTable(img, d1, EbrSector(d, m + 1), true, env, fuel - 1).disk, s, sector, 2, env, fuel);
    }
  }

  lemma OwnNotNested(img: Image, d: Disk, core: Disk, chs: ChsOf, env: Env, m: int)
    requires Reading(img, d, core, chs, env) && 5 <= m <= 4 + |core.logs|
    ensures 0 <= EbrSector(d, m) < |img|
    ensures !IsExtendedKind(EntryOf(img[EbrSector(d, m)], 0).kind)
  {
    hide Complete, Sound, EntryOf, LogNums, EbrSector, IsExtendedKind;
    var k := CoreLog(d, core, env, m);
    assert EntryOf(img[EbrSector(d, m)], 0) == EbrEntries(d, m, chs)[0];
    TypedLog(core, k);
  }

  lemma LastSkipped(img: Image, d: Disk, chs: ChsOf, n: nat, m: int)
    requires Chained(d, n) && HoldsChain(img, d, n, chs) && 5 <= m == 4 + n
    ensures 0 <= EbrSector(d, m) < |img|
    ensures forall j :: 1 <= j < 4 ==> !IsExtendedKind(EntryOf(img[EbrSector(d, m)], j).kind)
  {
    hide EntryOf, EbrSector;
    var e := EbrEntries(d, m, chs);
    assert e[1] == NO_ENTRY && e[2] == NO_ENTRY && e[3] == NO_ENTRY;
  }

  lemma ExtFacts(d: Disk, core: Disk, env: Env)
    requires Complete(d, core) && Sound(core, env) && HasExt(d)
    ensures var g := ExtPart(d).geom; HasExt(core) && ExtPart(core) == ExtPart(d) && g.Valid() && Fits32(g) && 1 <= g.start && g.end < core.len
  {
    hide Actives, Tiles, TilesExt, AllTables, Blank;
    PrimFacts(core, ExtIndex(core.prims), env);
  }

  // ---- the primary table ------------------------------------------------------------------------

  /** How far the logical numbers are known once the primary ones up to `i` are. */
  function LogsAt(core: Disk, i: int): int {
    if HasExt(core) && ExtPart(core).num <= i then 4 + |core.logs| else 4
  }

  ghost predicate HoldsTable(img: Image, d: Disk, core: Disk, chs: ChsOf) {
    && |img| > 0 && Magic(img[0]) == MSDOS_MAGIC
    && (forall i :: 0 <= i < 4 ==> EntryOf(img[0], i) == PrimEntry(d, i + 1, chs))
    && (HasExt(d) && core.logs == [] ==>
          && 0 <= ExtPart(d).geom.start < |img| && Magic(img[ExtPart(d).geom.start]) == MSDOS_MAGIC
          && forall i :: 0 <= i < 4 ==> EntryOf(img[ExtPart(d).geom.start], i) == NO_ENTRY)
  }

  /** Everything known while the table of `d` is read back. */
  ghost predicate ReadingTable(img: Image, d: Disk, core: Disk, chs: ChsOf, env: Env) {
    && Complete(d, core) && Sound(core, env) && Typed(core) && env.Valid() && env.scheme.Msdos?
    && HoldsTable(img, d, core, chs) && (HasExt(d) ==> Reading(img, d, core, chs, env))
  }

  /** Entry `i` of the primary table, in terms of the partitions proper. */
  lemma PrimSlot(d: Disk, core: Disk, env: Env, i: int, chs: ChsOf) returns (k: int)
    requires Complete(d, core) && Sound(core, env) && i >= 1
    ensures -1 <= k < |core.prims|
    ensures k < 0 ==> PrimEntry(d, i, chs) == NO_ENTRY && forall j :: 0 <= j < |core.prims| ==> core.prims[j].num != i
    ensures k >= 0 ==> core.prims[k].num == i && PrimEntry(d, i, chs) == FillRaw(core.prims[k], 0, chs)
  {
    hide Actives, Tiles, TilesExt, AllTables, LogNums, FillRaw, Level;
    var o := NumIndex(d.prims, i);
    if o >= 0 {
      ActPosFacts(d.prims, o);
      k := ActPos(d.prims, o);
    } else {
      k := -1;
      forall j | 0 <= j < |core.prims| ensures core.prims[j].num != i {
        var a := ActIndex(d.prims, j);
        assert !HasNum(d.prims[a], i);
      }
    }
  }

  /** An extended partition without logical ones is read as such. */
  lemma ReadNoChain(img: Image, d: Disk, core: Disk, chs: ChsOf, env: Env, cur: Disk, fuel: nat)
    requires ReadingTable(img, d, core, chs, env) && HasExt(d) && core.logs == [] && fuel > 0
    ensures ReadTable(img, cur, ExtPart(d).geom.start, true, env, fuel) == Done(cur)
  {
    hide Complete, Sound, EntryOf, ReadParts, ReadNested, Reading;
    var sector := ExtPart(d).geom.start;
    assert forall j :: 0 <= j < 4 ==> EntryOf(img[sector], j) == NO_ENTRY;
    SkipParts(img, cur, img[sector], sector, true, 0, env, fuel);
    SkipNested(img, cur, img[sector], sector, 0, env, fuel);
  }

  /** What the extended partition leads to is read back. */
  lemma ReadInside(img: Image, d: Disk, core: Disk, chs: ChsOf, env: Env, cur: Disk, i: int, fuel: nat)
    requires ReadingTable(img, d, core, chs, env) && HasExt(d) && fuel > |core.logs| && ExtPart(core).num <= i
    requires Holds(cur, ReadSoFar(core, i, 4)) && Sound(ReadSoFar(core, i, 4), env)
    ensures var r := ReadTable(img, cur, ExtPart(d).geom.start, true, env, fuel);
            var t := ReadSoFar(core, i, 4 + |core.logs|);
            r.Done? && Holds(r.disk, t) && Sound(t, env)
  {
    hide Complete, Sound, Holds, ReadTable, HoldsTable, LogNums, UpTo, HoldsChain;
    if core.logs == [] {
      ReadNoChain(img, d, core, chs, env, cur, fuel);
    } else {
      assert HasLog(d, 5);
      ReadChain(img, d, core, chs, env, cur, i, 5, fuel);
    }
  }

  lemma LogsAtStart(core: Disk, i: int, env: Env)
    requires Sound(core, env) && 0 <= i
    ensures LogsAt(core, i) == 4 || (HasExt(core) && ExtPart(core).num <= i)
    ensures HasExt(core) && ExtPart(core).num == i + 1 ==> LogsAt(core, i) == 4
    ensures !(HasExt(core) && ExtPart(core).num == i + 1) ==> LogsAt(core, i + 1) == LogsAt(core, i)
  {
  }

  lemma TypedPrim(core: Disk, k: nat)
    requires Typed(core) && k < |core.prims|
    ensures core.prims[k].system != 0
    ensures IsExtendedKind(core.prims[k].system) <==> core.prims[k].kind == Extended
  {
  }

  /** Adding the primary partition of entry `i`. */
  lemma AddPrim(core: Disk, cur: Disk, i: nat, k: nat, n: int, env: Env)
    requires Sound(core, env) && env.Valid() && env.scheme.Msdos? && i < 4 && k < |core.prims| && core.prims[k].num == i + 1
    requires Holds(cur, ReadSoFar(core, i, n)) && Sound(ReadSoFar(core, i, n), env)
    ensures core.prims[k].kind.Active() && core.prims[k].geom.Valid()
    ensures var r := AddExact(cur, core.prims[k], env);
            r.Some? && Holds(r.value, ReadSoFar(core, i + 1, n)) && Sound(ReadSoFar(core, i + 1, n), env)
  {
    hide Sound, Holds, AddExact, UpTo, Joins, Complete, Fits32;
    PrimFacts(core, k, env);
    PrimJoins(core, i, n, k, env);
    AddExactJoins(cur, ReadSoFar(core, i, n), core.prims[k], core.prims[k], env);
  }

  ghost predicate Got(r: ReadResult, t: Disk, env: Env) {
    r.Done? && Holds(r.disk, t) && Sound(t, env)
  }

  /** The loop over the primary entries. */
  lemma {:induction false} ReadPrims(img: Image, d: Disk, core: Disk, chs: ChsOf, env: Env, cur: Disk, i: nat, fuel: nat)
    requires ReadingTable(img, d, core, chs, env) && i <= 4 && fuel > |core.logs| + 1
    requires Holds(cur, ReadSoFar(core, i, LogsAt(core, i))) && Sound(ReadSoFar(core, i, LogsAt(core, i)), env)
    ensures Got(ReadParts(img, cur, img[0], 0, false, i, env, fuel), ReadSoFar(core, 4, LogsAt(core, 4)), env)
    decreases 4 - i
  {
    hide Complete, Sound, Typed, Holds, EntryOf, AddExact, ReadTable, LogNums, FillRaw, Parse, UpTo, LogsAt, PrimEntry, IsExtendedKind, Reading;
    if i < 4 {
      var s := img[0];
      var k := PrimSlot(d, core, env, i + 1, chs);
      assert EntryOf(s, i) == PrimEntry(d, i + 1, chs);
      LogsAtStart(core, i, env);
      if k < 0 {
        UpToSkip(core.prims, i);
        NoExtAt(core, i + 1);
        ReadPrims(img, d, core, chs, env, cur, i + 1, fuel);
      } else {
        var next := ReadPrim(img, d, core, chs, env, cur, i, k, fuel);
        ReadPrims(img, d, core, chs, env, next, i + 1, fuel);
      }
    }
  }

  lemma NoExtAt(core: Disk, i: int)
    requires forall j :: 0 <= j < |core.prims| ==> core.prims[j].num != i
    ensures !(HasExt(core) && ExtPart(core).num == i)
  {
  }

  /** One turn of the loop that finds a partition. */
  lemma ReadPrim(img: Image, d: Disk, core: Disk, chs: ChsOf, env: Env, cur: Disk, i: nat, k: nat, fuel: nat) returns (next: Disk)
    requires ReadingTable(img, d, core, chs, env) && i < 4 && fuel > |core.logs| + 1
    requires k < |core.prims| && core.prims[k].num == i + 1 && EntryOf(img[0], i) == FillRaw(core.prims[k], 0, chs)
    requires Holds(cur, ReadSoFar(core, i, LogsAt(core, i))) && Sound(ReadSoFar(core, i, LogsAt(core, i)), env)
    ensures ReadParts(img, cur, img[0], 0, false, i, env, fuel) == ReadParts(img, next, img[0], 0, false, i + 1, env, fuel)
    ensures Holds(next, ReadSoFar(core, i + 1, LogsAt(core, i + 1))) && Sound(ReadSoFar(core, i + 1, LogsAt(core, i + 1)), env)
  {
    hide Complete, Sound, Typed, Holds, EntryOf, AddExact, ReadTable, LogNums, FillRaw, Parse, UpTo, PrimEntry, IsExtendedKind, Reading, Fits32,
         HoldsTable, LogsAt;
    var q := core.prims[k];
    PrimFacts(core, k, env);
    FillParse(q, 0, chs, q.kind, i + 1);
    FillKind(q, 0, chs);
    TypedPrim(core, k);
    LogsAtStart(core, i, env);
    AddPrim(core, cur, i, k, LogsAt(core, i), env);
    next := AddExact(cur, q, env).value;
    if q.kind == Extended {
      ExtAt(core, k);
      SamePart(d, core);
      LogsAfterExt(core, i);
      ReadInside(img, d, core, chs, env, next, i + 1, fuel - 1);
      next := ReadTable(img, next, q.geom.start, true, env, fuel - 1).disk;
    } else {
      NotExtAt(core, i, k, env);
    }
  }

  lemma ExtAt(core: Disk, k: nat)
    requires OneExtended(core.prims) && k < |core.prims| && core.prims[k].kind == Extended
    ensures HasExt(core) && ExtPart(core) == core.prims[k]
  {
    ExtIs(core.prims, k);
  }

  lemma SamePart(d: Disk, core: Disk)
    requires Complete(d, core)
    ensures HasExt(d) <==> HasExt(core)
    ensures HasExt(d) ==> ExtPart(d) == ExtPart(core)
  {
  }

  lemma LogsAfterExt(core: Disk, i: int)
    requires HasExt(core) && ExtPart(core).num == i + 1
    ensures LogsAt(core, i + 1) == 4 + |core.logs| && LogsAt(core, i) == 4
  {
  }

  lemma NotExtAt(core: Disk, i: int, k: nat, env: Env)
    requires Sound(core, env) && k < |core.prims| && core.prims[k].num == i + 1 && core.prims[k].kind != Extended
    ensures !(HasExt(core) && ExtPart(core).num == i + 1)
  {
    if HasExt(core) { PrimFacts(core, k, env); }
  }

  // ---- the round trip ---------------------------------------------------------------------------

  /** Writing puts on the device what reading relies on. */
  lemma WrittenIsReadable(img: Image, d: Disk, core: Disk, head: seq<byte>, chs: ChsOf, env: Env)
    requires Complete(d, core) && Sound(core, env) && Typed(core) && env.Valid() && env.scheme.Msdos?
    requires |head| == 446 && |img| == core.len > 0
    ensures var r := WriteTable(img, d, head, chs);
            r.Some? && ReadingTable(r.value, d, core, chs, env)
  {
    hide Complete, Sound, Typed, WriteTable, PutTable, PrimEntry, PrimEntries, LogNums, EntryOf, Magic, EbrEntries, EbrSector;
    SoundUsable(core, env);
    LogCount(core, env);
    if HasExt(d) {
      TablesChained(d, core, env);
      ExtFacts(d, core, env);
    }
    WriteTableWrites(img, d, |core.logs|, head, chs);
    var out := WriteTable(img, d, head, chs).value;
    var s: Sector :| out[0] == PutTable(s, PrimEntries(d, chs));
    PrimTableHeld(out, d, s, chs);
    if HasExt(d) {
      ChainHeld(img, out, d, |core.logs|, chs);
      if core.logs == [] { EmptyHeld(out, img, ExtPart(d).geom.start); }
    }
  }

  lemma LogCount(core: Disk, env: Env)
    requires Sound(core, env)
    ensures |core.logs| <= MAX_TOTAL_PART - 4 && 2 <= core.len
  {
    hide Level, LogNums, PrimNums, Gapped;
    SoundUsable(core, env);
  }

  lemma PrimTableHeld(img: Image, d: Disk, s: Sector, chs: ChsOf)
    requires |img| > 0 && img[0] == PutTable(s, PrimEntries(d, chs))
    ensures Magic(img[0]) == MSDOS_MAGIC
    ensures forall i :: 0 <= i < 4 ==> EntryOf(img[0], i) == PrimEntry(d, i + 1, chs)
  {
    hide PutTable, PrimEntry, EntryOf, Magic;
    var e := PrimEntries(d, chs);
    forall i | 0 <= i < 4 ensures EntryOf(img[0], i) == PrimEntry(d, i + 1, chs) && Magic(img[0]) == MSDOS_MAGIC {
      TableRoundTrip(s, e, i);
    }
    TableRoundTrip(s, e, 0);
  }

  lemma ChainHeld(img: Image, out: Image, d: Disk, n: nat, chs: ChsOf)
    requires Chained(d, n) && |img| == |out| && 0 <= ExtPart(d).geom.start && ExtPart(d).geom.end < |img|
    requires forall m :: 5 <= m <= 4 + n ==> out[EbrSector(d, m)] == PutTable(img[EbrSector(d, m)], EbrEntries(d, m, chs))
    ensures HoldsChain(out, d, n, chs)
  {
    hide PutTable, EbrEntries, EntryOf, Magic, EbrSector;
    forall m | 5 <= m <= 4 + n
      ensures 0 <= EbrSector(d, m) < |out| && Magic(out[EbrSector(d, m)]) == MSDOS_MAGIC
      ensures forall i :: 0 <= i < 4 ==> EntryOf(out[EbrSector(d, m)], i) == EbrEntries(d, m, chs)[i]
    {
      var s := img[EbrSector(d, m)];
      TableRoundTrip(s, EbrEntries(d, m, chs), 0);
      forall i | 0 <= i < 4 ensures EntryOf(out[EbrSector(d, m)], i) == EbrEntries(d, m, chs)[i] {
        TableRoundTrip(s, EbrEntries(d, m, chs), i);
      }
    }
  }

  lemma EmptyHeld(out: Image, img: Image, sector: int)
    requires |img| == |out| && 0 <= sector < |img|
    requires out[sector] == PutTable(img[sector], [NO_ENTRY, NO_ENTRY, NO_ENTRY, NO_ENTRY])
    ensures Magic(out[sector]) == MSDOS_MAGIC
    ensures forall i :: 0 <= i < 4 ==> EntryOf(out[sector], i) == NO_ENTRY
  {
    hide PutTable, EntryOf, Magic;
    var e := [NO_ENTRY, NO_ENTRY, NO_ENTRY, NO_ENTRY];
    TableRoundTrip(img[sector], e, 0);
    forall i | 0 <= i < 4 ensures EntryOf(out[sector], i) == NO_ENTRY {
      TableRoundTrip(img[sector], e, i);
    }
  }

  /** Before anything is read. */
  lemma NothingRead(core: Disk, env: Env)
    requires Sound(core, env) && env.scheme.Msdos?
    ensures LogsAt(core, 0) == 4
    ensures ReadSoFar(core, 0, 4) == Disk(core.len, [], [], 1, true)
    ensures Sound(ReadSoFar(core, 0, 4), env)
  {
    hide Gapped, Holed, LogNums, PrimNums, OneExtended, InLimits;
    SoundUsable(core, env);
    forall j | 0 <= j < |core.prims| ensures core.prims[j].num > 0 { PrimFacts(core, j, env); }
    UpToNone(core.prims, 0);
    AllLogical(core);
    UpToNone(core.logs, 4);
    BareSound(Disk(core.len, [], [], 1, true), env);
  }

  /** After everything is read. */
  lemma AllRead(core: Disk, env: Env)
    requires Sound(core, env) && env.scheme.Msdos?
    ensures ReadSoFar(core, 4, LogsAt(core, 4)) == core.(mode := 1, clobber := true)
  {
    hide Gapped, Holed;
    SoundUsable(core, env);
    forall j | 0 <= j < |core.prims| ensures core.prims[j].num <= 4 { PrimFacts(core, j, env); }
    UpToAll(core.prims, 4);
    AllLogical(core);
    UpToAll(core.logs, LogsAt(core, 4));
  }

  /** Writing a table and reading it into a fresh one gives the same partitions, with
      the same numbers, regions, types and boot flags, whatever else is on the device
      and in whatever order the logical partitions lie; and reading goes no deeper
      than one level for each logical partition. */
  lemma RoundTrip(img: Image, d: Disk, core: Disk, head: seq<byte>, chs: ChsOf, env: Env, blank: Disk, fuel: nat)
    requires Complete(d, core) && Sound(core, env) && Typed(core) && env.Valid() && env.scheme.Msdos?
    requires |head| == 446 && |img| == core.len > 0 && fuel > |core.logs| + 1
    requires Holds(blank, Disk(core.len, [], [], 1, true))
    ensures var w := WriteTable(img, d, head, chs);
            && w.Some?
            && var r := ReadTable(w.value, blank, 0, false, env, fuel);
               && r.Done? && Actives(r.disk.prims) == Actives(d.prims) && Actives(r.disk.logs) == Actives(d.logs)
               && Holds(r.disk, core.(mode := 1, clobber := true))
  {
    hide Sound, Typed, WriteTable, ReadParts, Actives, Blank, Tiles, TilesExt, AllTables, LogsAt, UpTo, HoldsTable;
    WrittenIsReadable(img, d, core, head, chs, env);
    var out := WriteTable(img, d, head, chs).value;
    NothingRead(core, env);
    ReadPrims(out, d, core, chs, env, blank, 0, fuel);
    AllRead(core, env);
    ReadStart(out, d, core, chs, blank, env, fuel);
  }

  lemma ReadStart(img: Image, d: Disk, core: Disk, chs: ChsOf, cur: Disk, env: Env, fuel: nat)
    requires HoldsTable(img, d, core, chs) && env.Valid() && fuel > 0
    ensures ReadTable(img, cur, 0, false, env, fuel) == ReadParts(img, cur, img[0], 0, false, 0, env, fuel)
  {
    hide ReadParts, EntryOf;
  }
}
