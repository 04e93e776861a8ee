/** Every operation keeps the table sound: sorted, disjoint, nested, numbered, and
    for msdos with the table sectors of its logical partitions kept free. */
module DiskInvariant {
  import opened Geometry
  import A = Alignment
  import C = Constraint
  import opened PartList
  import opened Disk
  import opened DiskLayout
  import opened Numbering
  import opened LabelAlign
  import opened DiskOps

  // ---- taking an entry out ----------------------------------------------------------------

  lemma RemoveEntries(s: seq<Part>, k: nat)
    requires k < |s|
    ensures |RemoveAt(s, k)| == |s| - 1
    ensures forall i :: 0 <= i < |s| - 1 ==> RemoveAt(s, k)[i] == s[if i < k then i else i + 1]
  {
  }

  lemma RemoveLevel(s: seq<Part>, k: nat, lo: int, hi: int, inExtended: bool)
    requires Level(s, lo, hi, inExtended) && k < |s|
    ensures Level(RemoveAt(s, k), lo, hi, inExtended)
  {
    hide RemoveAt;
    RemoveEntries(s, k);
  }

  lemma RemoveActive(s: seq<Part>, k: nat)
    requires AllActive(s) && k < |s|
    ensures AllActive(RemoveAt(s, k))
  {
    hide RemoveAt;
    RemoveEntries(s, k);
  }

  lemma RemovePrimNums(s: seq<Part>, k: nat, max: int)
    requires PrimNums(s, max) && k < |s| && s[k].kind.Active()
    ensures PrimNums(RemoveAt(s, k), max) && !NumIn(RemoveAt(s, k), s[k].num)
  {
    hide RemoveAt;
    RemoveEntries(s, k);
  }

  ghost predicate AllGaps(s: seq<Part>, ext: Geom) {
    forall k :: 0 <= k < |s| ==> GapBefore(s, ext, k)
  }

  lemma RemoveGaps(s: seq<Part>, ext: Geom, k: nat)
    requires Ordered(s) && AllGaps(s, ext) && k < |s|
    ensures AllGaps(RemoveAt(s, k), ext)
  {
    hide RemoveAt;
    RemoveEntries(s, k);
    var r := RemoveAt(s, k);
    forall i | 0 <= i < |r| ensures GapBefore(r, ext, i) {
      var o := if i < k then i else i + 1;
      assert GapBefore(s, ext, o);
      if i == k {
        assert GapBefore(s, ext, k);
        assert s[k].geom.Valid();
      }
    }
  }

  lemma RemoveOther(s: seq<Part>, k: nat)
    requires OneExtended(s) && k < |s| && s[k].kind != Extended
    ensures OneExtended(RemoveAt(s, k))
    ensures (ExtIndex(RemoveAt(s, k)) >= 0) == (ExtIndex(s) >= 0)
    ensures ExtIndex(s) >= 0 ==> RemoveAt(s, k)[ExtIndex(RemoveAt(s, k))] == s[ExtIndex(s)]
  {
    hide RemoveAt, ExtIndex;
    RemoveEntries(s, k);
    var r, e := RemoveAt(s, k), ExtIndex(s);
    assert OneExtended(r);
    if e >= 0 {
      var f := if e < k then e else e - 1;
      assert r[f] == s[e];
      ExtIs(r, f);
    }
  }

  lemma RemoveExt(s: seq<Part>, k: nat)
    requires OneExtended(s) && k < |s| && s[k].kind == Extended
    ensures ExtIndex(RemoveAt(s, k)) < 0
  {
    hide RemoveAt;
    RemoveEntries(s, k);
  }

  // ---- putting an entry in ------------------------------------------------------------------

  lemma InsertActive(s: seq<Part>, p: Part)
    requires AllActive(s) && p.kind.Active()
    ensures AllActive(Insert(s, p))
  {
    hide Insert;
    InsertEntries(s, p);
  }

  lemma InsertInLimits(s: seq<Part>, p: Part)
    requires InLimits(s) && Fits32(p.geom)
    ensures InLimits(Insert(s, p))
  {
    hide Insert;
    InsertEntries(s, p);
  }

  lemma RemoveInLimits(s: seq<Part>, k: nat)
    requires InLimits(s) && k < |s|
    ensures InLimits(RemoveAt(s, k))
  {
    hide RemoveAt;
    RemoveEntries(s, k);
  }

  lemma InsertPrimNums(s: seq<Part>, p: Part, max: int)
    requires PrimNums(s, max) && p.kind.Active() && 1 <= p.num <= max && !NumIn(s, p.num)
    ensures PrimNums(Insert(s, p), max)
  {
    hide Insert;
    InsertEntries(s, p);
    forall i | 0 <= i < |s| && s[i].kind.Active() ensures s[i].num != p.num {
      assert !HasNum(s[i], p.num);
    }
  }

  lemma InsertLogNums(s: seq<Part>, p: Part, n: int)
    requires Holed(s, n, p.num) && p.kind == Logical
    ensures LogNums(Insert(s, p), n + 1)
  {
    hide Insert;
    InsertEntries(s, p);
    var r := Insert(s, p);
    forall m | 5 <= m <= 5 + n ensures NumIn(r, m) { InsertHasNum(s, p, n, m); }
  }

  lemma InsertHasNum(s: seq<Part>, p: Part, n: int, m: int)
    requires Holed(s, n, p.num) && p.kind == Logical && 5 <= m <= 5 + n
    ensures NumIn(Insert(s, p), m)
  {
    hide Insert;
    InsertEntries(s, p);
    var r, k := Insert(s, p), InsertPoint(s, p.geom.end);
    if m == p.num {
      assert HasNum(r[k], m);
    } else {
      assert NumIn(s, m);
      var j :| 0 <= j < |s| && HasNum(s[j], m);
      assert r[if j < k then j else j + 1] == s[j];
    }
  }

  /** `p` keeps the distance its table and those of the others need. */
  ghost predicate RoomFor(s: seq<Part>, ext: Geom, p: Part) {
    && p.geom.start >= ext.start + 1 + Not5(p.num)
    && forall j :: 0 <= j < |s| ==>
         || s[j].geom.end + 1 + Not5(p.num) <= p.geom.start
         || p.geom.end + 1 + Not5(s[j].num) <= s[j].geom.start
  }

  lemma InsertGaps(s: seq<Part>, ext: Geom, p: Part)
    requires Ordered(s) && AllGaps(s, ext) && p.geom.Valid() && RoomFor(s, ext, p)
    ensures AllGaps(Insert(s, p), ext)
  {
    hide Insert;
    InsertEntries(s, p);
    var r, k := Insert(s, p), InsertPoint(s, p.geom.end);
    forall i | 0 <= i < |r| ensures GapBefore(r, ext, i) {
      if i < k {
        assert GapBefore(s, ext, i);
      } else if i == k {
        if k > 0 { assert s[k - 1].geom.start <= p.geom.end; }
      } else {
        assert GapBefore(s, ext, i - 1);
      }
    }
  }

  // ---- a partition joins a table ---------------------------------------------------------------

  /** All of soundness but the compactness of the logical numbers. */
  ghost predicate Frame(d: Disk, env: Env) {
    Core(d) && Placed(d, env) && PrimNums(d.prims, MaxPrimaries(env))
  }

  /** What a partition must satisfy to join the table `d`. */
  ghost predicate Joins(d: Disk, p: Part, env: Env) {
    && p.kind.Active() && p.geom.Valid() && p.geom.end < d.len && Fits32(p.geom)
    && if p.kind == Logical
       then && env.scheme.Msdos? && HasExt(d) && ExtPart(d).geom.Encloses(p.geom)
            && ApartFrom(d.logs, p.geom) && RoomFor(d.logs, ExtPart(d).geom, p)
            && Holed(d.logs, |d.logs|, p.num)
       else && p.geom.start >= 1 && ApartFrom(d.prims, p.geom)
            && (env.scheme.Bsd? ==> p.kind == Normal)
            && (p.kind == Extended ==> !HasExt(d))
            && 1 <= p.num <= MaxPrimaries(env) && !NumIn(d.prims, p.num)
            && LogNums(d.logs, |d.logs|) && |d.logs| <= MAX_TOTAL_PART - 4
  }

  lemma JoinLogical(d: Disk, p: Part, env: Env)
    requires Frame(d, env) && Joins(d, p, env) && p.kind == Logical
    ensures Sound(RawAdd(d, p), env)
  {
    hide Level, Insert, AllActive, LogNums, PrimNums, OneExtended, ApartFrom, Actives, Holed, RoomFor, InLimits;
    var ext := ExtPart(d).geom;
    InsertLevel(d.logs, p, ext.start, ext.end, true);
    InsertActive(d.logs, p);
    InsertInLimits(d.logs, p);
    InsertLogNums(d.logs, p, |d.logs|);
    GapsOf(d);
    LevelOrdered(d.logs, ext.start, ext.end, true);
    InsertGaps(d.logs, ext, p);
    ActivesOfActives(Insert(d.logs, p));
    HoledBound(d.logs, |d.logs|, p.num);
    InsertEntries(d.logs, p);
  }

  lemma HoledBound(s: seq<Part>, n: int, gone: int)
    requires Holed(s, n, gone)
    ensures 5 + n <= MAX_TOTAL_PART
  {
  }

  lemma LevelOrdered(s: seq<Part>, lo: int, hi: int, inExtended: bool)
    requires Level(s, lo, hi, inExtended)
    ensures Ordered(s)
  {
  }

  lemma GapsOf(d: Disk)
    ensures HasExt(d) && Gapped(d) ==> AllGaps(d.logs, ExtPart(d).geom)
    ensures HasExt(d) && AllGaps(d.logs, ExtPart(d).geom) ==> Gapped(d)
  {
  }

  lemma JoinPrimary(d: Disk, p: Part, env: Env)
    requires Frame(d, env) && Joins(d, p, env) && p.kind != Logical
    ensures Sound(RawAdd(d, p), env)
  {
    hide Level, Insert, AllActive, LogNums, PrimNums, OneExtended, ApartFrom, Actives, Placed;
    InsertLevel(d.prims, p, 0, d.len - 1, false);
    InsertActive(d.prims, p);
    InsertPrimNums(d.prims, p, MaxPrimaries(env));
    ActivesOfActives(d.logs);
    JoinExt(d, p);
    JoinPlaced(d, p, env);
  }

  /** The extended partition after a primary one has joined. */
  lemma JoinExt(d: Disk, p: Part)
    requires Laid(d) && p.kind.Active() && !p.kind.InExtended() && (p.kind == Extended ==> !HasExt(d))
    ensures var r := RawAdd(d, p);
            && OneExtended(r.prims)
            && (HasExt(d) ==> HasExt(r) && ExtPart(r) == ExtPart(d))
            && (!HasExt(d) ==> d.logs == [] && (HasExt(r) ==> ExtPart(r) == p))
            && Level(d.logs, if HasExt(r) then ExtPart(r).geom.start else 0, if HasExt(r) then ExtPart(r).geom.end else 0, true)
  {
    InsertEntries(d.prims, p);
    var r, k := Insert(d.prims, p), InsertPoint(d.prims, p.geom.end);
    if p.kind == Extended {
      ExtIs(r, k);
    } else {
      ExtAfterInsert(d.prims, p);
    }
  }

  lemma JoinPlaced(d: Disk, p: Part, env: Env)
    requires Laid(d) && Placed(d, env) && Joins(d, p, env) && p.kind != Logical
    ensures Placed(RawAdd(d, p), env)
  {
    hide Level, OneExtended, ApartFrom, Insert, LogNums, NumIn, InLimits;
    InsertEntries(d.prims, p);
    InsertInLimits(d.prims, p);
    JoinExt(d, p);
  }

  // ---- the stretch kept for tables ---------------------------------------------------------------

  /** All entries but `skip` keep each other's distance, past the first sector. */
  ghost predicate Spaced(s: seq<Part>, skip: int, ext: Geom) {
    && (forall i, j :: 0 <= i < j < |s| && i != skip && j != skip ==>
          s[i].geom.end + 1 + Not5(s[j].num) <= s[j].geom.start)
    && (forall i :: 0 <= i < |s| && i != skip ==> ext.start < s[i].geom.start <= s[i].geom.end)
  }

  lemma GapsSpaced(s: seq<Part>, ext: Geom)
    requires Ordered(s) && AllGaps(s, ext)
    ensures Spaced(s, -1, ext)
  {
    forall i, j | 0 <= i < j < |s| ensures s[i].geom.end + 1 + Not5(s[j].num) <= s[j].geom.start {
      assert GapBefore(s, ext, j);
      if i < j - 1 { assert s[i].geom.end < s[j - 1].geom.start; assert s[j - 1].geom.Valid(); }
    }
    forall i | 0 <= i < |s| ensures ext.start < s[i].geom.start <= s[i].geom.end {
      assert GapBefore(s, ext, 0);
      if i > 0 { assert s[0].geom.end < s[i].geom.start; assert s[0].geom.Valid(); }
      assert s[i].geom.Valid();
    }
  }

  /** Every logical partition keeps the distance of its table from the first sector. */
  lemma LogDistance(d: Disk, k: nat)
    requires HasExt(d) && k < |d.logs| && Ordered(d.logs) && AllGaps(d.logs, ExtPart(d).geom)
    ensures d.logs[k].geom.start >= ExtPart(d).geom.start + 1 + Not5(d.logs[k].num)
  {
    var s, ext := d.logs, ExtPart(d).geom;
    assert GapBefore(s, ext, k) && GapBefore(s, ext, 0);
    if k > 0 { assert s[0].geom.end < s[k].geom.start; assert s[0].geom.Valid(); }
  }

  lemma {:induction false} MetaWalkFacts(s: seq<Part>, skip: int, ext: Geom, num: int, start: int, i: nat, m: int)
    requires Spaced(s, skip, ext) && AllActive(s) && i <= |s|
    requires m >= ext.start + 1 + Not5(num)
    requires forall j :: 0 <= j < i && j != skip ==> s[j].geom.end + 1 + Not5(num) <= m
    ensures var (k, r) := MetaWalk(s, skip, num, start, i, m);
            && r >= ext.start + 1 + Not5(num)
            && forall j :: 0 <= j < k && j != skip ==> s[j].geom.end + 1 + Not5(num) <= r
    decreases |s| - i
  {
    if i < |s| && (s[i].geom.start - Not5(s[i].num) < start - Not5(num)
                   || s[i].geom.start - Not5(s[i].num) <= m) {
      MetaWalkFacts(s, skip, ext, num, start, i + 1,
                    if i != skip && s[i].kind.Active() then s[i].geom.end + 1 + Not5(num) else m);
    }
  }

  /** Inside the stretch there is room for the table of `p` and of its neighbours. */
  lemma MetaSpaceRoom(d: Disk, p: Part, skip: int, g: Geom, j: nat)
    requires HasExt(d) && Spaced(d.logs, skip, ExtPart(d).geom) && AllActive(d.logs) && g.Valid()
    requires MetaSpace(d, p, skip).Some? && MetaSpace(d, p, skip).value.Encloses(g)
    ensures g.start >= ExtPart(d).geom.start + 1 + Not5(p.num)
    ensures j < |d.logs| && j != skip ==>
              || d.logs[j].geom.end + 1 + Not5(p.num) <= g.start
              || g.end + 1 + Not5(d.logs[j].num) <= d.logs[j].geom.start
  {
    hide MetaWalk, MetaNext;
    var s, ext := d.logs, ExtPart(d).geom;
    MetaWalkFacts(s, skip, ext, p.num, p.geom.start, 0, ext.start + 1 + Not5(p.num));
    var (k, m) := MetaWalk(s, skip, p.num, p.geom.start, 0, ext.start + 1 + Not5(p.num));
    var next := MetaNext(s, skip, k);
    if next < j < |s| && j != skip {
      assert s[next].geom.end + 1 + Not5(s[j].num) <= s[j].geom.start;
    }
  }

  // ---- adding -----------------------------------------------------------------------------------

  /** A region inside the overlap constraint is apart from all other partitions. */
  lemma OverlapApart(d: Disk, kind: Kind, skip: int, start: int, g: Geom, j: nat)
    requires Laid(d) && Overlappable(d, kind) && g.Valid()
    requires C.Solves(OverlapConstraint(d, kind, skip, start), g)
    ensures var s := if kind.InExtended() then d.logs else d.prims;
            j < |s| && j != skip ==> Apart(s[j].geom, g)
    ensures kind.InExtended() ==> ExtPart(d).geom.Encloses(g)
  {
    hide Gap, OneExtended;
    var free := FreeStretch(d, kind, skip, start).value;
    C.FromMaxMeaning(free, g);
    if kind.InExtended() {
      GapIsFree(d.logs, skip, start, ExtPart(d).geom.start, ExtPart(d).geom.end, g);
    } else {
      GapIsFree(d.prims, skip, start, 0, LLONG_MAX - 1, g);
    }
  }

  /** The number found for a new partition. */
  lemma NewNumber(d: Disk, env: Env, p: Part)
    requires Sound(d, env) && p.num == UNNUMBERED && EnumNum(d, env, p).Some?
    requires p.kind.Active() && (p.kind == Logical ==> env.scheme.Msdos?)
    ensures var n := EnumNum(d, env, p).value;
            if p.kind == Logical then Holed(d.logs, |d.logs|, n) && n == 5 + |d.logs|
            else 1 <= n <= MaxPrimaries(env) && !NumIn(d.prims, n)
  {
    if p.kind == Logical {
      ActivesOfActives(d.logs);
      NextLogicalNumber(d, env);
    }
  }

  lemma NextLogicalNumber(d: Disk, env: Env)
    requires Core(d) && env.scheme.Msdos? && PrimNums(d.prims, DOS_N_PRI_PARTITIONS) && LogNums(d.logs, |d.logs|)
    requires NextFree(d, 5, MAX_TOTAL_PART) != UNNUMBERED
    ensures NextFree(d, 5, MAX_TOTAL_PART) == 5 + |d.logs|
    ensures Holed(d.logs, |d.logs|, 5 + |d.logs|)
  {
    var n, k := NextFree(d, 5, MAX_TOTAL_PART), |d.logs|;
    assert !NumUsed(d, 5 + k);
    assert n < 5 + k ==> NumIn(d.logs, n);
  }

  lemma SoundUsable(d: Disk, env: Env)
    requires Sound(d, env)
    ensures Usable(d) && Frame(d, env) && Laid(d)
    ensures HasExt(d) ==> ExtPart(d).geom.Valid()
    ensures env.scheme.Bsd? ==> !HasExt(d)
    ensures LogNums(d.logs, |d.logs|) && |d.logs| <= MAX_TOTAL_PART - 4
  {
    ActivesOfActives(d.logs);
  }

  /** A new partition fits its label and its level. */
  predicate Welcome(d: Disk, p: Part, env: Env) {
    && p.kind.Active() && p.num == UNNUMBERED
    && (env.scheme.Bsd? ==> p.kind == Normal)
    && (p.kind == Logical ==> HasExt(d))
  }

  /** Outside the reading of a label, an added partition joins soundly: wherever
      the constraint solver and the label have put it. */
  lemma AddJoins(d: Disk, p: Part, c: Option<C.Constraint>, env: Env)
    requires Sound(d, env) && env.Valid() && C.ValidOpt(c) && !d.clobber
    requires Usable(d) && Welcome(d, p, env)
    ensures var r := NewPart(d, p, c, env);
            r.Some? ==> Joins(d, r.value, env) && C.Solves(c, r.value.geom)
                        && r.value == p.(geom := r.value.geom, num := r.value.num)
  {
    hide Align, OverlapConstraint, LogNums, PrimNums, Level, Holed, NumIn, RoomFor, ApartFrom, C.Intersect, EnumNum;
    var r := NewPart(d, p, c, env);
    if r.Some? {
      SoundUsable(d, env);
      var over := OverlapConstraint(d, p.kind, -1, p.geom.start);
      var both := C.Intersect(over, c);
      var p1 := p.(num := EnumNum(d, env, p).value);
      var g := r.value.geom;
      AlignSound(d, p1, both, -1, env);
      C.IntersectExact(over, c, g);
      NewNumber(d, env, p);
      AddApart(d, p.kind, p.geom.start, g);
      if p.kind == Logical { AddRoom(d, p1, g, env); }
    }
  }

  lemma AddApart(d: Disk, kind: Kind, start: int, g: Geom)
    requires Laid(d) && Overlappable(d, kind) && g.Valid() && C.Solves(OverlapConstraint(d, kind, -1, start), g)
    ensures ApartFrom(if kind.InExtended() then d.logs else d.prims, g)
    ensures kind.InExtended() ==> ExtPart(d).geom.Encloses(g)
  {
    hide OverlapConstraint, Level, OneExtended;
    var s := if kind.InExtended() then d.logs else d.prims;
    OverlapApart(d, kind, -1, start, g, 0);
    forall j | 0 <= j < |s| ensures Apart(s[j].geom, g) { OverlapApart(d, kind, -1, start, g, j); }
  }

  lemma AddRoom(d: Disk, p: Part, g: Geom, env: Env)
    requires Sound(d, env) && env.scheme.Msdos? && HasExt(d) && g.Valid() && KeepsTables(d, p, -1, Some(g))
    ensures RoomFor(d.logs, ExtPart(d).geom, p.(geom := g))
  {
    hide MetaSpace, LogNums, PrimNums, Level, Spaced, AllActive;
    var ext := ExtPart(d).geom;
    GapsOf(d);
    LevelOrdered(d.logs, ext.start, ext.end, true);
    GapsSpaced(d.logs, ext);
    MetaSpaceRoom(d, p, -1, g, 0);
    forall j | 0 <= j < |d.logs|
      ensures d.logs[j].geom.end + 1 + Not5(p.num) <= g.start || g.end + 1 + Not5(d.logs[j].num) <= d.logs[j].geom.start
    {
      MetaSpaceRoom(d, p, -1, g, j);
    }
  }

  // ---- adding while a label is read -----------------------------------------------------------------

  /** While `needs_clobber` is set nothing is aligned and the constraint is only
      tested for emptiness: the lists stay in order exactly when the caller's
      region overlaps no partition of its level. */
  lemma ClobberAddOrdered(d: Disk, p: Part, c: Option<C.Constraint>, env: Env)
    requires Sound(d, env) && env.Valid() && C.ValidOpt(c) && d.clobber && p.geom.Valid()
    requires Usable(d) && p.kind.Active() && (p.kind.InExtended() ==> HasExt(d))
    requires NewPart(d, p, c, env).Some?
    ensures var s := if p.kind.InExtended() then d.logs else d.prims;
            Ordered(Insert(s, NewPart(d, p, c, env).value)) <==> ApartFrom(s, p.geom)
  {
    hide Sound, NewPart, Ordered, Insert, ApartFrom;
    BothOrdered(d, env);
    ClobberRegion(d, p, c, env);
    OrderedIffApart(if p.kind.InExtended() then d.logs else d.prims, NewPart(d, p, c, env).value);
  }

  lemma BothOrdered(d: Disk, env: Env)
    requires Sound(d, env)
    ensures Ordered(d.prims) && Ordered(d.logs)
  {
  }

  lemma ClobberRegion(d: Disk, p: Part, c: Option<C.Constraint>, env: Env)
    requires env.Valid() && C.ValidOpt(c) && d.clobber && Usable(d) && p.kind.Active() && (p.kind.InExtended() ==> HasExt(d))
    ensures NewPart(d, p, c, env).Some? ==> NewPart(d, p, c, env).value.geom == p.geom
  {
    hide Align, OverlapConstraint, C.Intersect, CheckPartition, EnumNum;
  }

  lemma OrderedIffApart(s: seq<Part>, q: Part)
    requires Ordered(s) && q.geom.Valid()
    ensures Ordered(Insert(s, q)) <==> ApartFrom(s, q.geom)
  {
    hide Insert;
    if ApartFrom(s, q.geom) {
      InsertOrdered(s, q);
    }
    if Ordered(Insert(s, q)) {
      InsertEntries(s, q);
      var r, k := Insert(s, q), InsertPoint(s, q.geom.end);
      forall i | 0 <= i < |s| ensures Apart(s[i].geom, q.geom) {
        assert r[if i < k then i else i + 1] == s[i];
      }
    }
  }

  /** An exact constraint makes the emptiness test a test for overlaps. */
  lemma ClobberExactApart(d: Disk, p: Part, env: Env)
    requires Laid(d) && env.Valid() && d.clobber && p.geom.Valid() && p.geom.end < d.len
    requires Usable(d) && p.kind.Active() && (p.kind.InExtended() ==> HasExt(d))
    requires NewPart(d, p, Some(C.Exact(p.geom, d.len)), env).Some?
    ensures ApartFrom(if p.kind.InExtended() then d.logs else d.prims, p.geom)
  {
    hide Align, OverlapConstraint, CheckPartition, EnumNum, Level, OneExtended;
    var over := OverlapConstraint(d, p.kind, -1, p.geom.start);
    var free := FreeStretch(d, p.kind, -1, p.geom.start);
    assert over == Some(C.FromMax(free.value)) by { OverlapIsMax(d, p.kind, -1, p.geom.start); }
    assert free.value.Contains(p.geom.start) && free.value.Contains(p.geom.end);
    C.FromMaxMeaning(free.value, p.geom);
    AddApart(d, p.kind, p.geom.start, p.geom);
  }

  /** What a region must satisfy where nothing aligns it: it stays off sector 0, and
      among logical partitions it keeps the distance that the tables need. */
  ghost predicate Unaligned(d: Disk, p: Part) {
    if p.kind == Logical then HasExt(d) && RoomFor(d.logs, ExtPart(d).geom, p) else p.geom.start >= 1
  }

  /** A partition in a sound list keeps its distance. */
  lemma RoomBack(s: seq<Part>, ext: Geom, p: Part)
    requires Ordered(s) && p.geom.Valid() && Ordered(Insert(s, p)) && AllGaps(Insert(s, p), ext)
    ensures RoomFor(s, ext, p)
  {
    hide Insert;
    InsertEntries(s, p);
    var r, k := Insert(s, p), InsertPoint(s, p.geom.end);
    GapsSpaced(r, ext);
    assert GapBefore(r, ext, 0) && GapBefore(r, ext, k);
    if k > 0 { assert r[0].geom.end + 1 + Not5(p.num) <= p.geom.start; assert r[0].geom.Valid(); }
    forall j | 0 <= j < |s|
      ensures s[j].geom.end + 1 + Not5(p.num) <= p.geom.start || p.geom.end + 1 + Not5(s[j].num) <= s[j].geom.start
    {
      if j < k { assert r[j] == s[j]; } else { assert r[j + 1] == s[j]; }
    }
  }

  lemma SoundUnaligned(d: Disk, p: Part, env: Env)
    requires Frame(d, env) && p.geom.Valid() && p.kind.Active() && Sound(RawAdd(d, p), env)
    requires p.kind == Logical ==> HasExt(d) && env.scheme.Msdos?
    ensures Unaligned(d, p)
  {
    hide Insert, LogNums, PrimNums, OneExtended, InLimits, AllActive, RoomFor, ExtIndex, Actives, GapBefore;
    var r := RawAdd(d, p);
    if p.kind == Logical {
      var ext := ExtPart(d).geom;
      GapsOf(r);
      LevelOrdered(r.logs, ext.start, ext.end, true);
      LevelOrdered(d.logs, ext.start, ext.end, true);
      RoomBack(d.logs, ext, p);
    } else {
      InsertEntries(d.prims, p);
    }
  }

  /** The region an exact constraint lets through is apart and in bounds. */
  lemma ClobberJoins(d: Disk, p: Part, env: Env)
    requires Sound(d, env) && env.Valid() && d.clobber && Usable(d) && Welcome(d, p, env) && p.geom.Valid()
    requires NewPart(d, p, Some(C.Exact(p.geom, d.len)), env).Some?
    ensures var q := NewPart(d, p, Some(C.Exact(p.geom, d.len)), env).value;
            q == p.(num := q.num) && (Unaligned(d, q) ==> Joins(d, q, env))
            && (p.kind == Logical ==> q.num == 5 + |d.logs|)
  {
    hide Align, OverlapConstraint, LogNums, PrimNums, Level, Holed, NumIn, RoomFor, ApartFrom, C.Intersect, EnumNum, OneExtended;
    SoundUsable(d, env);
    NewNumber(d, env, p);
    ClobberExactApart(d, p, env);
  }

  /** While `needs_clobber` is set, an addition under an exact constraint keeps the table
      sound exactly when the region asked for is one that needs no aligning. */
  lemma ClobberAddSound(d: Disk, p: Part, env: Env)
    requires Sound(d, env) && env.Valid() && d.clobber && Usable(d) && Welcome(d, p, env) && p.geom.Valid()
    requires NewPart(d, p, Some(C.Exact(p.geom, d.len)), env).Some?
    ensures var q := NewPart(d, p, Some(C.Exact(p.geom, d.len)), env).value;
            q == p.(num := q.num) && (p.kind == Logical ==> q.num == 5 + |d.logs|)
            && (Sound(RawAdd(d, q), env) <==> Unaligned(d, q))
  {
    hide NewPart, Sound, Joins, Frame, Unaligned, C.Exact;
    ClobberJoins(d, p, env);
    SoundUsable(d, env);
    var q := NewPart(d, p, Some(C.Exact(p.geom, d.len)), env).value;
    if Unaligned(d, q) {
      if q.kind == Logical { JoinLogical(d, q, env); } else { JoinPrimary(d, q, env); }
    }
    if Sound(RawAdd(d, q), env) { SoundUnaligned(d, q, env); }
  }

  /** While `needs_clobber` is set: the constraint is exact and the region one that
      needs no aligning.  The next logical partition gets the number after the last. */
  ghost predicate AsIs(d: Disk, p: Part, c: Option<C.Constraint>) {
    && p.geom.Valid() && d.len > 0 && c == Some(C.Exact(p.geom, d.len))
    && Unaligned(d, if p.kind == Logical then p.(num := 5 + |d.logs|) else p)
  }

  /** Adding keeps the table sound. */
  lemma AddSound(d: Disk, p: Part, c: Option<C.Constraint>, env: Env)
    requires Sound(d, env) && env.Valid() && C.ValidOpt(c)
    requires Usable(d) && Welcome(d, p, env) && (d.clobber ==> AsIs(d, p, c))
    ensures var r := NewPart(d, p, c, env);
            r.Some? ==> Sound(RawAdd(d, r.value), env)
  {
    hide NewPart, Sound, Joins, Frame;
    SoundUsable(d, env);
    var r := NewPart(d, p, c, env);
    if r.Some? {
      if d.clobber {
        ClobberAddSound(d, p, env);
      } else {
        AddJoins(d, p, c, env);
        if r.value.kind == Logical { JoinLogical(d, r.value, env); } else { JoinPrimary(d, r.value, env); }
      }
    }
  }

  /** Without an exact constraint an overlapping partition is accepted: one from 10 to
      20 on a device of 100 sectors, and then one from 15 to 30. */
  lemma ClobberAcceptsOverlap(d: Disk, p: Part, first: Part, env: Env)
    requires env.Valid() && d == Disk(100, [first], [], 1, true)
    requires first == Part(Normal, Geom(10, 20), 1, 0, false) && p == Part(Normal, Geom(15, 30), UNNUMBERED, 0, false)
    ensures Sound(d, env) && Usable(d) && Welcome(d, p, env)
    ensures NewPart(d, p, Some(C.AnyOn(100)), env).Some?
    ensures Overlap(first.geom, NewPart(d, p, Some(C.AnyOn(100)), env).value.geom)
  {
    hide Sound, Usable, C.Intersect, OverlapConstraint, C.AnyOn, Align, EnumNum, ExtIndex, CheckPartition;
    OneSound(d, first, env);
    SoundUsable(d, env);
    AnyMeetsOverlap(d, p);
    SecondNumbered(d, p, first, env);
  }

  lemma SecondNumbered(d: Disk, p: Part, first: Part, env: Env)
    requires d == Disk(100, [first], [], 1, true) && first.num == 1 && first.kind == Normal
    requires p.kind == Normal && p.geom == Geom(15, 30) && p.num == UNNUMBERED
    ensures EnumNum(d, env, p).Some? && CheckPartition(d, p.(num := EnumNum(d, env, p).value), None)
  {
    TwoIsFree(d, first);
    assert ExtIndex([first]) < 0;
  }

  lemma OneSound(d: Disk, first: Part, env: Env)
    requires d == Disk(100, [first], [], 1, true) && first == Part(Normal, Geom(10, 20), 1, 0, false)
    ensures Sound(d, env)
  {
    hide Gapped;
    assert ExtIndex([first]) < 0;
    BareSound(d, env);
  }

  lemma AnyMeetsOverlap(d: Disk, p: Part)
    requires d.len == 100 && d.logs == [] && |d.prims| == 1 && d.prims[0].geom == Geom(10, 20)
    requires p.kind == Normal && p.geom == Geom(15, 30)
    ensures Overlappable(d, p.kind) && C.Intersect(OverlapConstraint(d, p.kind, -1, p.geom.start), Some(C.AnyOn(100))).Some?
  {
    hide C.Intersect, C.AnyOn, Gap, OverlapConstraint;
    StretchBehind(d);
    OverlapIsMax(d, Normal, -1, 15);
    var g, over := Geom(21, 30), OverlapConstraint(d, Normal, -1, 15);
    C.FromMaxMeaning(Geom(21, LLONG_MAX - 1), g);
    C.AnyMeaning(d.len, g);
    C.IntersectExact(over, Some(C.AnyOn(100)), g);
  }

  lemma StretchBehind(d: Disk)
    requires d.logs == [] && |d.prims| == 1 && d.prims[0].geom == Geom(10, 20)
    ensures Overlappable(d, Normal) && FreeStretch(d, Normal, -1, 15) == Some(Geom(21, LLONG_MAX - 1))
    ensures OverlapConstraint(d, Normal, -1, 15).Some?
  {
    var s := d.prims;
    assert GapWalk(s, -1, 15, 1, 21) == (1, 21);
    assert GapWalk(s, -1, 15, 0, 0) == (1, 21);
  }

  lemma TwoIsFree(d: Disk, first: Part)
    requires d.logs == [] && d.prims == [first] && first.num == 1
    ensures !NumUsed(d, 2)
  {
  }

  lemma OverlapIsMax(d: Disk, kind: Kind, skip: int, start: int)
    requires Overlappable(d, kind) && OverlapConstraint(d, kind, skip, start).Some?
    ensures FreeStretch(d, kind, skip, start).Some? && FreeStretch(d, kind, skip, start).value.Valid()
    ensures OverlapConstraint(d, kind, skip, start) == Some(C.FromMax(FreeStretch(d, kind, skip, start).value))
  {
  }

  // ---- moving and resizing ------------------------------------------------------------------------------

  lemma ApartWithout(s: seq<Part>, k: nat, g: Geom)
    requires k < |s| && forall j :: 0 <= j < |s| && j != k ==> Apart(s[j].geom, g)
    ensures ApartFrom(RemoveAt(s, k), g)
  {
    hide RemoveAt;
    RemoveEntries(s, k);
  }

  lemma RoomWithout(s: seq<Part>, ext: Geom, k: nat, p: Part)
    requires k < |s| && p.geom.start >= ext.start + 1 + Not5(p.num)
    requires forall j :: 0 <= j < |s| && j != k ==>
               || s[j].geom.end + 1 + Not5(p.num) <= p.geom.start
               || p.geom.end + 1 + Not5(s[j].num) <= s[j].geom.start
    ensures RoomFor(RemoveAt(s, k), ext, p)
  {
    hide RemoveAt;
    RemoveEntries(s, k);
  }

  /** A table without one of its partitions other than the extended one. */
  lemma RemoveFrame(d: Disk, ref: Ref, env: Env)
    requires Sound(d, env) && RefOk(d, ref) && PartAt(d, ref).kind != Extended
    ensures Frame(RawRemove(d, ref), env)
    ensures HasExt(RawRemove(d, ref)) == HasExt(d)
    ensures HasExt(d) ==> ExtPart(RawRemove(d, ref)) == ExtPart(d)
  {
    hide Level, AllActive, LogNums, PrimNums, OneExtended, RemoveAt, Actives, StartsFrom1, AllNormal, GapBefore, InLimits;
    match ref
    case Prim(k) =>
      RemovePrims(d, k, env);
      RemoveOther(d.prims, k);
      GapsOf(d);
      GapsOf(RawRemove(d, ref));
    case Log(k) =>
      var ext := ExtPart(d).geom;
      RemoveLevel(d.logs, k, ext.start, ext.end, true);
      RemoveActive(d.logs, k);
      RemoveInLimits(d.logs, k);
      LevelOrdered(d.logs, ext.start, ext.end, true);
      GapsOf(d);
      GapsOf(RawRemove(d, ref));
      RemoveGaps(d.logs, ext, k);
  }

  lemma RemovePrims(d: Disk, k: nat, env: Env)
    requires Sound(d, env) && k < |d.prims|
    ensures var s := RemoveAt(d.prims, k);
            && Level(s, 0, d.len - 1, false) && AllActive(s) && PrimNums(s, MaxPrimaries(env))
            && !NumIn(s, d.prims[k].num) && StartsFrom1(s) && InLimits(s) && (AllNormal(d.prims) ==> AllNormal(s))
  {
    hide LogNums, OneExtended, Actives, Gapped;
    RemoveLevel(d.prims, k, 0, d.len - 1, false);
    RemoveActive(d.prims, k);
    RemovePrimNums(d.prims, k, MaxPrimaries(env));
    RemoveInLimits(d.prims, k);
    RemoveEntries(d.prims, k);
  }

  /** The partition at its new place, next to the table without it. */
  lemma MovedJoins(d: Disk, ref: Ref, g: Geom, env: Env)
    requires Sound(d, env) && Handle(d, ref) && PartAt(d, ref).kind != Extended
    requires g.Valid() && g.end < d.len && Fits32(g)
    requires var s := if ref.Log? then d.logs else d.prims;
             forall j :: 0 <= j < |s| && j != ref.k ==> Apart(s[j].geom, g)
    requires ref.Prim? ==> g.start >= 1
    requires ref.Log? ==> env.scheme.Msdos? && ExtPart(d).geom.Encloses(g)
                          && RoomFor(RemoveAt(d.logs, ref.k), ExtPart(d).geom, PartAt(d, ref).(geom := g))
    ensures Joins(RawRemove(d, ref), PartAt(d, ref).(geom := g), env)
  {
    hide Level, PrimNums, OneExtended, RemoveAt, Actives, Gapped, RoomFor, LogNums, NumIn, Holed;
    SoundUsable(d, env);
    RemoveFrame(d, ref, env);
    ApartWithout(if ref.Log? then d.logs else d.prims, ref.k, g);
    match ref
    case Prim(k) =>
      RemovePrims(d, k, env);
      PrimNumRange(d.prims, k, MaxPrimaries(env));
    case Log(k) =>
      RemoveEntries(d.logs, k);
      AllLogical(d);
      RemoveLeavesHole(d.logs, |d.logs| - 1, k);
  }

  lemma PrimNumRange(s: seq<Part>, k: nat, max: int)
    requires PrimNums(s, max) && k < |s| && s[k].kind.Active()
    ensures 1 <= s[k].num <= max
  {
  }

  lemma AllLogical(d: Disk)
    requires Core(d)
    ensures forall i :: 0 <= i < |d.logs| ==> d.logs[i].kind == Logical
  {
    forall i | 0 <= i < |d.logs| ensures d.logs[i].kind == Logical {
      assert d.logs[i].kind.Active() && d.logs[i].kind.InExtended();
    }
  }

  lemma MovedApart(d: Disk, kind: Kind, skip: nat, start: int, g: Geom)
    requires Laid(d) && Overlappable(d, kind) && g.Valid() && C.Solves(OverlapConstraint(d, kind, skip, start), g)
    ensures var s := if kind.InExtended() then d.logs else d.prims;
            forall j :: 0 <= j < |s| && j != skip ==> Apart(s[j].geom, g)
    ensures kind.InExtended() ==> ExtPart(d).geom.Encloses(g)
  {
    hide OverlapConstraint, Level, OneExtended;
    var s := if kind.InExtended() then d.logs else d.prims;
    OverlapApart(d, kind, skip, start, g, 0);
    forall j | 0 <= j < |s| && j != skip ensures Apart(s[j].geom, g) { OverlapApart(d, kind, skip, start, g, j); }
  }

  lemma MovedRoom(d: Disk, k: nat, p: Part, g: Geom, env: Env)
    requires Sound(d, env) && env.scheme.Msdos? && HasExt(d) && k < |d.logs| && g.Valid()
    requires p.num == d.logs[k].num && p.kind == Logical
    requires KeepsTables(d.(logs := d.logs[k := p]), p, k, Some(g))
    ensures RoomFor(RemoveAt(d.logs, k), ExtPart(d).geom, p.(geom := g))
  {
    hide MetaSpace, LogNums, PrimNums, Level, RemoveAt;
    var ext, d1 := ExtPart(d).geom, d.(logs := d.logs[k := p]);
    GapsOf(d);
    LevelOrdered(d.logs, ext.start, ext.end, true);
    GapsSpaced(d.logs, ext);
    assert Spaced(d1.logs, k, ext) && AllActive(d1.logs);
    MetaSpaceRoom(d1, p, k, g, k);
    forall j | 0 <= j < |d.logs| && j != k
      ensures d.logs[j].geom.end + 1 + Not5(p.num) <= g.start || g.end + 1 + Not5(d.logs[j].num) <= d.logs[j].geom.start
    {
      MetaSpaceRoom(d1, p, k, g, j);
      assert d1.logs[j] == d.logs[j];
    }
    RoomWithout(d.logs, ext, k, p.(geom := g));
  }

  /** What the place chosen by a successful change satisfies. */
  lemma SetGeomPlace(d: Disk, ref: Ref, c: Option<C.Constraint>, start: int, end: int, env: Env) returns (g: Geom)
    requires Sound(d, env) && env.Valid() && C.ValidOpt(c) && !d.clobber && 0 <= start <= end
    requires Usable(d) && Handle(d, ref) && SetGeomCore(d, ref, c, start, end, env).Changed?
    ensures PlaceFor(d, ref, Bounds(d, ref, c, start), Geom(start, end), env) == Some(g)
    ensures SetGeomCore(d, ref, c, start, end, env).disk == RawAdd(RawRemove(d, ref), PartAt(d, ref).(geom := g))
    ensures C.Solves(c, g) && C.Solves(OverlapConstraint(d, PartAt(d, ref).kind, ref.k, start), g)
    ensures g.Valid() && g.end < d.len && Fits32(g)
    ensures CheckPartition(SetPart(d, ref, PartAt(d, ref).(geom := g)), PartAt(d, ref).(geom := g), Some(ref))
    ensures ref.Prim? ==> g.start >= 1
    ensures ref.Log? ==> env.scheme.Msdos? && PartAt(d, ref).kind == Logical
    ensures ref.Log? ==> var p := PartAt(d, ref).(geom := Geom(start, end));
                         KeepsTables(d.(logs := d.logs[ref.k := p]), p, ref.k, Some(g))
  {
    hide Align, OverlapConstraint, LogNums, PrimNums, Level, C.Intersect, CheckPartition, KeepsTables, OneExtended;
    SoundUsable(d, env);
    var p := PartAt(d, ref);
    var over := OverlapConstraint(d, p.kind, ref.k, start);
    var both := C.Intersect(over, c);
    var p1 := p.(geom := Geom(start, end));
    var d1 := SetPart(d, ref, p1);
    SetPartExt(d, ref, p1);
    g := Align(d1, p1, both, ref.k, env).value;
    AlignSound(d1, p1, both, ref.k, env);
    C.IntersectExact(over, c, g);
    if ref.Log? { AllLogical(d); } else { PrimKind(d, ref.k); }
    CheckLimits(SetPart(d, ref, p.(geom := g)), p.(geom := g), Some(ref));
  }

  lemma CheckLimits(d: Disk, p: Part, self: Option<Ref>)
    requires CheckPartition(d, p, self)
    ensures Fits32(p.geom) && p.geom.end < d.len
  {
  }

  lemma PrimKind(d: Disk, k: nat)
    requires Core(d) && k < |d.prims|
    ensures d.prims[k].kind == Normal || d.prims[k].kind == Extended
  {
    assert d.prims[k].kind.Active() && !d.prims[k].kind.InExtended();
  }

  lemma SetGeomAligned(d: Disk, ref: Ref, c: Option<C.Constraint>, start: int, end: int, env: Env)
    requires Sound(d, env) && env.Valid() && C.ValidOpt(c) && !d.clobber && 0 <= start <= end
    requires Usable(d) && Handle(d, ref) && PartAt(d, ref).kind != Extended
    ensures var r := SetGeomCore(d, ref, c, start, end, env);
            r.Changed? ==> Sound(r.disk, env)
  {
    hide SetGeomCore, Sound, Joins, Frame, CheckPartition, OverlapConstraint, KeepsTables, RoomFor, RemoveAt;
    SoundUsable(d, env);
    if SetGeomCore(d, ref, c, start, end, env).Changed? {
      var p := PartAt(d, ref);
      var g := SetGeomPlace(d, ref, c, start, end, env);
      MovedApart(d, p.kind, ref.k, start, g);
      if ref.Log? { MovedRoom(d, ref.k, p.(geom := Geom(start, end)), g, env); }
      MovedJoins(d, ref, g, env);
      RemoveFrame(d, ref, env);
      if p.kind == Logical {
        JoinLogical(RawRemove(d, ref), p.(geom := g), env);
      } else {
        JoinPrimary(RawRemove(d, ref), p.(geom := g), env);
      }
    }
  }

  /** What a refused change leaves in the table. */
  lemma RefusedLeaves(d: Disk, ref: Ref, c: Option<C.Constraint>, start: int, end: int, env: Env)
    requires Usable(d) && Handle(d, ref) && C.ValidOpt(c) && env.Valid() && 0 <= start <= end
    requires SetGeomCore(d, ref, c, start, end, env).Refused?
    ensures var left := LeftBehind(d, ref, c, start, end, env);
            && (left.Some? ==> left.value.Valid())
            && SetGeomCore(d, ref, c, start, end, env).disk
               == if left.None? then d else SetPart(d, ref, PartAt(d, ref).(geom := left.value))
  {
    hide Align, OverlapConstraint, C.Intersect, CheckPartition;
    var both, p := Bounds(d, ref, c, start), PartAt(d, ref).(geom := Geom(start, end));
    SetPartExt(d, ref, p);
    AlignSound(SetPart(d, ref, p), p, both, ref.k, env);
  }

  // ---- the extended partition -----------------------------------------------------------------------------

  /** Changing the extended partition keeps order, nesting and numbers; the table
      sectors stay free exactly when the first logical partition keeps its
      distance from the new start. */
  lemma SetGeomExtended(d: Disk, e: nat, c: Option<C.Constraint>, start: int, end: int, env: Env)
    requires Sound(d, env) && env.Valid() && C.ValidOpt(c) && !d.clobber && 0 <= start <= end
    requires Usable(d) && e < |d.prims| && d.prims[e].kind == Extended && Handle(d, Prim(e))
    requires SetGeomCore(d, Prim(e), c, start, end, env).Changed?
    ensures var r := SetGeomCore(d, Prim(e), c, start, end, env).disk;
            && Core(r) && Numbered(r, env) && HasExt(r) && r.logs == d.logs && StartsFrom1(r.prims)
            && (Sound(r, env) <==> d.logs == [] || GapBefore(d.logs, ExtPart(r).geom, 0))
  {
    hide SetGeomCore, Sound, Core, Numbered, CheckPartition, OverlapConstraint, Insert, RemoveAt, StartsFrom1, GapBefore,
         Gapped, Apart, Handle, Usable;
    var g := SetGeomPlace(d, Prim(e), c, start, end, env);
    SoundUsable(d, env);
    MovedApart(d, Extended, e, start, g);
    LogsInside(d, e, g);
    ExtResult(d, e, g, env);
  }

  lemma ExtResult(d: Disk, e: nat, g: Geom, env: Env)
    requires Sound(d, env) && e < |d.prims| && d.prims[e].kind == Extended
    requires g.Valid() && g.end < d.len && g.start >= 1 && Fits32(g) && Level(d.logs, g.start, g.end, true)
    requires forall j :: 0 <= j < |d.prims| && j != e ==> Apart(d.prims[j].geom, g)
    ensures var r := RawAdd(RawRemove(d, Prim(e)), d.prims[e].(geom := g));
            && Core(r) && Numbered(r, env) && HasExt(r) && r.logs == d.logs && StartsFrom1(r.prims)
            && (Sound(r, env) <==> d.logs == [] || GapBefore(d.logs, ExtPart(r).geom, 0))
  {
    hide InLimits, Level, Insert, RemoveAt, PrimNums, LogNums, OneExtended, AllActive, StartsFrom1, GapBefore, Apart, Actives, ExtIndex;
    ExtIs(d.prims, e);
    ExtMoved(d, e, g, env);
    var r := RawAdd(RawRemove(d, Prim(e)), d.prims[e].(geom := g));
    GapsOnlyFirst(d, r);
    SoundIffGapped(d, r, env);
  }

  lemma SoundIffGapped(d: Disk, r: Disk, env: Env)
    requires Sound(d, env) && HasExt(d) && Core(r) && Numbered(r, env) && StartsFrom1(r.prims)
    requires InLimits(r.prims) && InLimits(r.logs)
    ensures Sound(r, env) <==> Gapped(r)
  {
    hide InLimits, Level, PrimNums, LogNums, OneExtended, AllActive, StartsFrom1, Gapped, Actives;
  }

  lemma ExtMoved(d: Disk, e: nat, g: Geom, env: Env)
    requires Sound(d, env) && e < |d.prims| && d.prims[e].kind == Extended
    requires g.Valid() && g.end < d.len && g.start >= 1 && Fits32(g)
    requires forall j :: 0 <= j < |d.prims| && j != e ==> Apart(d.prims[j].geom, g)
    ensures var s := Insert(RemoveAt(d.prims, e), d.prims[e].(geom := g));
            && Level(s, 0, d.len - 1, false) && AllActive(s) && OneExtended(s) && StartsFrom1(s) && InLimits(s)
            && PrimNums(s, MaxPrimaries(env))
            && ExtIndex(s) >= 0 && s[ExtIndex(s)] == d.prims[e].(geom := g)
  {
    hide Level, PrimNums, LogNums, Insert, RemoveAt, AllActive, Actives, Gapped;
    var t, p := RemoveAt(d.prims, e), d.prims[e].(geom := g);
    RemovePrims(d, e, env);
    ApartWithout(d.prims, e, g);
    InsertLevel(t, p, 0, d.len - 1, false);
    InsertActive(t, p);
    InsertInLimits(t, p);
    PrimNumRange(d.prims, e, MaxPrimaries(env));
    InsertPrimNums(t, p, MaxPrimaries(env));
    RemoveExt(d.prims, e);
    InsertEntries(t, p);
    ExtIs(Insert(t, p), InsertPoint(t, p.geom.end));
  }

  lemma LogsInside(d: Disk, e: nat, g: Geom)
    requires Laid(d) && e < |d.prims| && d.prims[e].kind == Extended
    requires CheckPartition(SetPart(d, Prim(e), d.prims[e].(geom := g)), d.prims[e].(geom := g), Some(Prim(e)))
    ensures Level(d.logs, g.start, g.end, true)
  {
    var d2 := SetPart(d, Prim(e), d.prims[e].(geom := g));
    ExtIs(d.prims, e);
    SetPartExt(d, Prim(e), d.prims[e].(geom := g));
    assert HasExt(d2) && d2.logs == d.logs;
  }

  lemma GapsOnlyFirst(d: Disk, r: Disk)
    requires HasExt(d) && Gapped(d) && HasExt(r) && r.logs == d.logs
    ensures Gapped(r) <==> d.logs == [] || GapBefore(d.logs, ExtPart(r).geom, 0)
  {
    var s := d.logs;
    forall k | 0 < k < |s| ensures GapBefore(s, ExtPart(r).geom, k) {
      assert GapBefore(s, ExtPart(d).geom, k);
    }
  }

  // ---- moving without alignment -----------------------------------------------------------------------------

  /** The condition of `Unaligned` for a partition that is moved. */
  ghost predicate UnalignedMove(d: Disk, ref: Ref, g: Geom)
    requires RefOk(d, ref)
  {
    if PartAt(d, ref).kind == Extended then g.start >= 1 && (d.logs == [] || GapBefore(d.logs, g, 0))
    else Unaligned(RawRemove(d, ref), PartAt(d, ref).(geom := g))
  }

  /** A region that an exact constraint lets through lies in the free stretch. */
  lemma ExactInside(over: Option<C.Constraint>, free: Geom, g: Geom, len: int)
    requires free.Valid() && over == Some(C.FromMax(free)) && g.Valid() && g.end < len && C.Intersect(over, Some(C.Exact(g, len))).Some?
    ensures C.Solves(over, g)
  {
    assert free.Contains(g.start) && free.Contains(g.end);
    C.FromMaxMeaning(free, g);
  }

  lemma BothHas(over: Option<C.Constraint>, c: Option<C.Constraint>)
    requires C.ValidOpt(over) && C.ValidOpt(c) && C.Intersect(over, c).Some?
    ensures over.Some?
  {
  }

  lemma ClobberPlace(d: Disk, ref: Ref, g: Geom, env: Env)
    requires Sound(d, env) && env.Valid() && d.clobber && Usable(d) && Handle(d, ref) && g.Valid()
    requires SetGeomCore(d, ref, Some(C.Exact(g, d.len)), g.start, g.end, env).Changed?
    ensures var p := PartAt(d, ref).(geom := g);
            && SetGeomCore(d, ref, Some(C.Exact(g, d.len)), g.start, g.end, env).disk == RawAdd(RawRemove(d, ref), p)
            && CheckPartition(SetPart(d, ref, p), p, Some(ref)) && Fits32(g) && g.end < d.len
            && C.Solves(OverlapConstraint(d, p.kind, ref.k, g.start), g)
  {
    hide Align, OverlapConstraint, LogNums, PrimNums, Level, C.Intersect, CheckPartition, OneExtended, C.Exact, FreeStretch;
    var p := PartAt(d, ref).(geom := g);
    CheckLimits(SetPart(d, ref, p), p, Some(ref));
    BothHas(OverlapConstraint(d, p.kind, ref.k, g.start), Some(C.Exact(g, d.len)));
    OverlapIsMax(d, p.kind, ref.k, g.start);
    ExactInside(OverlapConstraint(d, p.kind, ref.k, g.start), FreeStretch(d, p.kind, ref.k, g.start).value, g, d.len);
  }

  /** While `needs_clobber` is set, a change under an exact constraint keeps the table
      sound exactly when the region asked for is one that needs no aligning. */
  lemma ClobberSetSound(d: Disk, ref: Ref, g: Geom, env: Env)
    requires Sound(d, env) && env.Valid() && d.clobber && Usable(d) && Handle(d, ref) && g.Valid()
    requires SetGeomCore(d, ref, Some(C.Exact(g, d.len)), g.start, g.end, env).Changed?
    ensures Sound(SetGeomCore(d, ref, Some(C.Exact(g, d.len)), g.start, g.end, env).disk, env) <==> UnalignedMove(d, ref, g)
  {
    hide SetGeomCore, Sound, CheckPartition, OverlapConstraint, Usable, C.Exact, Unaligned;
    ClobberPlace(d, ref, g, env);
    SoundUsable(d, env);
    MovedApart(d, PartAt(d, ref).kind, ref.k, g.start, g);
    if PartAt(d, ref).kind == Extended {
      ClobberExt(d, ref.k, g, env);
    } else {
      ClobberOther(d, ref, g, env);
    }
  }

  lemma ClobberExt(d: Disk, e: nat, g: Geom, env: Env)
    requires Sound(d, env) && e < |d.prims| && d.prims[e].kind == Extended && g.Valid() && g.end < d.len && Fits32(g)
    requires forall j :: 0 <= j < |d.prims| && j != e ==> Apart(d.prims[j].geom, g)
    requires CheckPartition(SetPart(d, Prim(e), d.prims[e].(geom := g)), d.prims[e].(geom := g), Some(Prim(e)))
    ensures Sound(RawAdd(RawRemove(d, Prim(e)), d.prims[e].(geom := g)), env) <==> UnalignedMove(d, Prim(e), g)
  {
    hide Insert, RemoveAt, LogNums, PrimNums, OneExtended, InLimits, AllActive, GapBefore, Gapped, Level, CheckPartition, Actives;
    LogsInside(d, e, g);
    if g.start >= 1 {
      ExtResult(d, e, g, env);
      ExtResultIs(d, e, g, env);
    } else {
      InsertEntries(RemoveAt(d.prims, e), d.prims[e].(geom := g));
    }
  }

  lemma ExtResultIs(d: Disk, e: nat, g: Geom, env: Env)
    requires Sound(d, env) && e < |d.prims| && d.prims[e].kind == Extended && g.Valid() && g.end < d.len && Fits32(g) && g.start >= 1
    requires forall j :: 0 <= j < |d.prims| && j != e ==> Apart(d.prims[j].geom, g)
    ensures var r := RawAdd(RawRemove(d, Prim(e)), d.prims[e].(geom := g)); HasExt(r) && ExtPart(r).geom == g
  {
    hide InLimits, Level, Insert, RemoveAt, PrimNums, LogNums, OneExtended, AllActive, StartsFrom1, Apart, Actives, ExtIndex;
    ExtMoved(d, e, g, env);
  }

  lemma ClobberOther(d: Disk, ref: Ref, g: Geom, env: Env)
    requires Sound(d, env) && Handle(d, ref) && PartAt(d, ref).kind != Extended && g.Valid() && g.end < d.len && Fits32(g)
    requires var s := if ref.Log? then d.logs else d.prims; forall j :: 0 <= j < |s| && j != ref.k ==> Apart(s[j].geom, g)
    requires ref.Log? ==> ExtPart(d).geom.Encloses(g)
    ensures Sound(RawAdd(RawRemove(d, ref), PartAt(d, ref).(geom := g)), env) <==> UnalignedMove(d, ref, g)
  {
    hide Sound, Joins, Frame, RoomFor, RemoveAt, Insert;
    var p, r := PartAt(d, ref).(geom := g), RawRemove(d, ref);
    RemoveFrame(d, ref, env);
    MovedKind(d, ref, env);
    if UnalignedMove(d, ref, g) {
      MovedJoins(d, ref, g, env);
      if p.kind == Logical { JoinLogical(r, p, env); } else { JoinPrimary(r, p, env); }
    }
    if Sound(RawAdd(r, p), env) { SoundUnaligned(r, p, env); }
  }

  lemma MovedKind(d: Disk, ref: Ref, env: Env)
    requires Sound(d, env) && Handle(d, ref) && PartAt(d, ref).kind != Extended
    ensures if ref.Log? then PartAt(d, ref).kind == Logical && env.scheme.Msdos? else PartAt(d, ref).kind == Normal
  {
    SoundUsable(d, env);
    if ref.Log? { AllLogical(d); } else { PrimKind(d, ref.k); }
  }

  ghost predicate AsIsMove(d: Disk, ref: Ref, c: Option<C.Constraint>, g: Geom)
    requires RefOk(d, ref)
  {
    g.Valid() && d.len > 0 && c == Some(C.Exact(g, d.len)) && UnalignedMove(d, ref, g)
  }

  /** Moving or resizing any partition but the extended one keeps the table sound. */
  lemma SetGeomSound(d: Disk, ref: Ref, c: Option<C.Constraint>, start: int, end: int, env: Env)
    requires Sound(d, env) && env.Valid() && C.ValidOpt(c) && 0 <= start <= end
    requires Usable(d) && Handle(d, ref) && PartAt(d, ref).kind != Extended
    requires d.clobber ==> AsIsMove(d, ref, c, Geom(start, end))
    ensures var r := SetGeomCore(d, ref, c, start, end, env);
            r.Changed? ==> Sound(r.disk, env)
  {
    hide SetGeomCore, Sound, UnalignedMove, Usable;
    if SetGeomCore(d, ref, c, start, end, env).Changed? {
      if d.clobber { ClobberSetSound(d, ref, Geom(start, end), env); } else { SetGeomAligned(d, ref, c, start, end, env); }
    }
  }

  // ---- deleting --------------------------------------------------------------------------------------------

  lemma ShiftedKeeps(s: seq<Part>, gone: int, i: int, ext: Geom)
    requires Level(s, ext.start, ext.end, true) && AllActive(s) && AllGaps(s, ext) && InLimits(s) && 5 <= gone
    ensures var r := Shifted(s, gone, i);
            Level(r, ext.start, ext.end, true) && AllActive(r) && AllGaps(r, ext) && InLimits(r)
  {
    var r := Shifted(s, gone, i);
    forall k | 0 <= k < |r| ensures GapBefore(r, ext, k) {
      assert GapBefore(s, ext, k);
    }
  }

  /** Deleting a logical partition: the others keep their places and their order of
      numbers, which become 5..4+n again. */
  lemma DeleteLogical(d: Disk, k: nat, env: Env)
    requires Sound(d, env) && k < |d.logs|
    ensures var s := RemoveAt(d.logs, k);
            && DeleteCore(d, Log(k), env) == d.(logs := Shifted(s, d.logs[k].num, MAX_TOTAL_PART + 1))
            && Sound(DeleteCore(d, Log(k), env), env)
  {
    hide Level, PrimNums, LogNums, OneExtended, RemoveAt, Actives, EnumerateAll, Shifted, AllActive, Holed;
    var s, gone, n := RemoveAt(d.logs, k), d.logs[k].num, |d.logs| - 1;
    var ext := ExtPart(d).geom;
    SoundUsable(d, env);
    AllLogical(d);
    RemoveLeavesHole(d.logs, n, k);
    RemoveEntries(d.logs, k);
    EnumerateCloses(RawRemove(d, Log(k)), env, n, gone);
    var r := Shifted(s, gone, MAX_TOTAL_PART + 1);
    RemoveFrame(d, Log(k), env);
    GapsOf(RawRemove(d, Log(k)));
    HoledLow(s, n, gone);
    ShiftedKeeps(s, gone, MAX_TOTAL_PART + 1, ext);
    GapsOf(d.(logs := r));
    ActivesOfActives(r);
  }

  lemma HoledLow(s: seq<Part>, n: int, gone: int)
    requires Holed(s, n, gone)
    ensures 5 <= gone
  {
  }

  lemma DeletePrimary(d: Disk, k: nat, env: Env)
    requires Sound(d, env) && k < |d.prims| && d.prims[k].kind != Extended
    ensures DeleteCore(d, Prim(k), env) == d.(prims := RemoveAt(d.prims, k))
    ensures Sound(DeleteCore(d, Prim(k), env), env)
  {
    hide Level, PrimNums, LogNums, OneExtended, RemoveAt, Actives, EnumerateAll, AllActive, StartsFrom1, AllNormal;
    SoundUsable(d, env);
    RemoveFrame(d, Prim(k), env);
    AllLogical(d);
    EnumerateStable(RawRemove(d, Prim(k)), env, |d.logs|);
    ActivesOfActives(d.logs);
  }

  lemma {:induction false} DeleteAllLogical(d: Disk, env: Env)
    requires Sound(d, env)
    ensures DeleteLogicals(d, env) == d.(logs := []) && Sound(d.(logs := []), env)
    decreases |d.logs|
  {
    if d.logs == [] {
      assert d == d.(logs := []);
    } else {
      hide Sound;
      DeleteLogical(d, 0, env);
      var d1 := DeleteCore(d, Log(0), env);
      assert |d1.logs| == |d.logs| - 1 by { RemoveEntries(d.logs, 0); }
      DeleteAllLogical(d1, env);
    }
  }

  lemma DeleteExtended(d: Disk, k: nat, env: Env)
    requires Sound(d, env) && k < |d.prims| && d.prims[k].kind == Extended
    ensures DeleteCore(d, Prim(k), env) == d.(prims := RemoveAt(d.prims, k), logs := [])
    ensures Sound(DeleteCore(d, Prim(k), env), env)
  {
    hide Level, PrimNums, LogNums, OneExtended, RemoveAt, Actives, EnumerateAll, AllActive, DeleteLogicals;
    DeleteAllLogical(d, env);
    var d1 := d.(logs := []);
    var d2 := RawRemove(d1, Prim(k));
    RemovePrims(d1, k, env);
    RemoveExt(d1.prims, k);
    BareSound(d2, env);
    EnumerateStable(d2, env, 0);
  }

  /** A table without extended partition. */
  lemma BareSound(d: Disk, env: Env)
    requires 2 <= d.len <= A.INT64_MAX && Level(d.prims, 0, d.len - 1, false) && AllActive(d.prims)
    requires !HasExt(d) && d.logs == [] && PrimNums(d.prims, MaxPrimaries(env)) && StartsFrom1(d.prims) && InLimits(d.prims)
    requires env.scheme.Bsd? ==> AllNormal(d.prims)
    ensures Sound(d, env) && CleanNums(d, env, 0)
  {
  }
}
