/** Growing a partition and finding out how far it could grow
    (libparted/disk.c:2349-2445). */
module Growing {
  import opened Geometry
  import C = Constraint
  import opened PartList
  import opened Disk
  import opened DiskLayout
  import opened LabelAlign
  import opened DiskOps
  import opened DiskInvariant

  // ---- moving inside the stretch between the neighbours -------------------------------------

  /** A partition that stays between its neighbours keeps its position. */
  lemma InsertSamePlace(s: seq<Part>, k: nat, g: Geom)
    requires Ordered(s) && k < |s| && g.Valid()
    requires k > 0 ==> s[k - 1].geom.end < g.start
    requires k + 1 < |s| ==> g.end < s[k + 1].geom.start
    ensures Insert(RemoveAt(s, k), s[k].(geom := g)) == s[k := s[k].(geom := g)]
  {
    var r, p := RemoveAt(s, k), s[k].(geom := g);
    assert InsertPoint(r, g.end) == k by { SamePoint(s, k, g); }
    assert r[..k] == s[..k] && r[k..] == s[k + 1..];
    assert s[k := p] == s[..k] + [p] + s[k + 1..];
  }

  lemma SamePoint(s: seq<Part>, k: nat, g: Geom)
    requires Ordered(s) && k < |s| && g.Valid()
    requires k > 0 ==> s[k - 1].geom.end < g.start
    requires k + 1 < |s| ==> g.end < s[k + 1].geom.start
    ensures InsertPoint(RemoveAt(s, k), g.end) == k
  {
    hide RemoveAt;
    var r := RemoveAt(s, k);
    RemoveEntries(s, k);
    forall i | 0 <= i < k ensures r[i].geom.start <= g.end {
      assert s[i].geom.Valid();
      if i < k - 1 { assert s[i].geom.end < s[k - 1].geom.start; assert s[k - 1].geom.Valid(); }
    }
    InsertPointIs(r, g.end, k);
  }

  function ListOf(d: Disk, ref: Ref): seq<Part> {
    if ref.Log? then d.logs else d.prims
  }

  /** `g` lies between the neighbours of the partition. */
  ghost predicate BetweenNeighbours(s: seq<Part>, k: nat, g: Geom)
    requires k < |s|
  {
    && (k > 0 ==> s[k - 1].geom.end < g.start)
    && (k + 1 < |s| ==> g.end < s[k + 1].geom.start)
  }

  lemma SamePlace(d: Disk, ref: Ref, g: Geom)
    requires Laid(d) && Handle(d, ref) && g.Valid() && BetweenNeighbours(ListOf(d, ref), ref.k, g)
    ensures RawAdd(RawRemove(d, ref), PartAt(d, ref).(geom := g)) == SetPart(d, ref, PartAt(d, ref).(geom := g))
  {
    InsertSamePlace(ListOf(d, ref), ref.k, g);
  }

  /** The stretch computed for a start between the neighbours. */
  lemma StretchAround(d: Disk, ref: Ref, start: int)
    requires Laid(d) && Handle(d, ref) && Overlappable(d, PartAt(d, ref).kind)
    requires var s, k := ListOf(d, ref), ref.k;
             && (if k > 0 then s[k - 1].geom.end < start else start >= (if ref.Log? then ExtPart(d).geom.start else 0))
             && (if k + 1 < |s| then start < s[k + 1].geom.start else start <= (if ref.Log? then ExtPart(d).geom.end else d.len - 1))
    ensures var s, k := ListOf(d, ref), ref.k;
            var f := FreeStretch(d, PartAt(d, ref).kind, k, start);
            && f.Some?
            && f.value.start == (if k > 0 then s[k - 1].geom.end + 1 else if ref.Log? then ExtPart(d).geom.start else 0)
            && f.value.end == (if k + 1 < |s| then s[k + 1].geom.start - 1 else if ref.Log? then ExtPart(d).geom.end else LLONG_MAX - 1)
  {
    hide Gap;
    if ref.Log? {
      GapAround(d.logs, ref.k, start, ExtPart(d).geom.start, ExtPart(d).geom.end);
    } else {
      GapAround(d.prims, ref.k, start, 0, LLONG_MAX - 1);
    }
  }

  /** Asking for the widest region keeps the partition between its neighbours. */
  lemma WidestStays(d: Disk, ref: Ref, c: Option<C.Constraint>, env: Env) returns (g: Geom)
    requires Sound(d, env) && env.Valid() && C.ValidOpt(c) && !d.clobber && Usable(d) && Handle(d, ref)
    requires 0 <= WidestStart(d, ref) <= WidestEnd(d, ref)
    requires SetGeomCore(d, ref, c, WidestStart(d, ref), WidestEnd(d, ref), env).Changed?
    ensures SetGeomCore(d, ref, c, WidestStart(d, ref), WidestEnd(d, ref), env).disk
            == SetPart(d, ref, PartAt(d, ref).(geom := g))
    ensures g.Valid() && g.end < d.len && C.Solves(c, g) && BetweenNeighbours(ListOf(d, ref), ref.k, g)
    ensures ref.Log? ==> ExtPart(d).geom.Encloses(g) && env.scheme.Msdos? && PartAt(d, ref).kind == Logical
    ensures ref.Log? ==> var p := PartAt(d, ref).(geom := Geom(WidestStart(d, ref), WidestEnd(d, ref)));
                         KeepsTables(d.(logs := d.logs[ref.k := p]), p, ref.k, Some(g))
  {
    hide SetGeomCore, Sound, CheckPartition, KeepsTables, FreeStretch, RawAdd, RawRemove, Level, OneExtended, OverlapConstraint;
    var start, end := WidestStart(d, ref), WidestEnd(d, ref);
    SoundUsable(d, env);
    g := SetGeomPlace(d, ref, c, start, end, env);
    StretchAround(d, ref, start);
    var f := FreeStretch(d, PartAt(d, ref).kind, ref.k, start).value;
    OverlapIsMax(d, PartAt(d, ref).kind, ref.k, start);
    C.FromMaxMeaning(f, g);
    MovedApart(d, PartAt(d, ref).kind, ref.k, start, g);
    SamePlace(d, ref, g);
  }

  lemma WidestOrdered(d: Disk, ref: Ref, env: Env)
    requires Sound(d, env) && Handle(d, ref)
    ensures 0 <= WidestStart(d, ref) <= PartAt(d, ref).geom.start
    ensures PartAt(d, ref).geom.end <= WidestEnd(d, ref)
    ensures BetweenNeighbours(ListOf(d, ref), ref.k, PartAt(d, ref).geom)
    ensures PartAt(d, ref).geom.Valid() && PartAt(d, ref).geom.end < d.len
  {
    LevelOf(d, ref, env);
    var s, k := ListOf(d, ref), ref.k;
    assert s[k].geom.Valid();
    if k > 0 { assert s[k - 1].geom.end < s[k].geom.start; assert s[k - 1].geom.Valid(); }
    if k + 1 < |s| { assert s[k].geom.end < s[k + 1].geom.start; }
  }

  lemma LevelOf(d: Disk, ref: Ref, env: Env)
    requires Sound(d, env) && Handle(d, ref)
    ensures Ordered(ListOf(d, ref)) && Within(ListOf(d, ref), 0, d.len - 1)
    ensures ref.Log? ==> Within(d.logs, ExtPart(d).geom.start, ExtPart(d).geom.end) && ExtPart(d).geom.Valid() && ExtPart(d).geom.end < d.len
  {
  }

  // ---- putting a partition back with an exact constraint -----------------------------------------

  /** A label that is asked for exactly one acceptable region chooses it. */
  lemma AlignPinned(d: Disk, p: Part, c: Option<C.Constraint>, skip: int, env: Env, region: Geom)
    requires Alignable(d, p) && env.Valid() && C.Pinned(c, region) && region.Valid() && 1 <= region.start && region.end < d.len
    requires p.kind == Normal || (p.kind == Logical && env.scheme.Msdos?)
    requires p.kind == Logical ==> MetaSpace(d, p, skip).Some? && MetaSpace(d, p, skip).value.Encloses(region)
    ensures Align(d, p, c, skip, env) == Some(region)
  {
    hide AlignPrimary, AlignLogical, MetaSpace, MetaOverlap, C.Pinned, PastFirstSector, TryConstraint;
    PinnedPast(d, p, c, region);
    if env.scheme.Msdos? {
      if p.kind == Logical {
        PinnedLogical(d, p, env.probe(p), c, skip, region);
        PinnedMeta(d, p, c, skip, region);
      } else {
        PinnedPrimary(d, p, env.probe(p), c, region);
      }
    }
  }

  lemma PinnedPrimary(d: Disk, p: Part, bios: Bios, c: Option<C.Constraint>, region: Geom)
    requires bios.Valid() && d.len >= 2 && NonNegative(d.logs) && C.Pinned(c, region)
    ensures AlignPrimary(d, p, bios, c).None? || AlignPrimary(d, p, bios, c) == Some(region)
  {
    hide AlignPrimary, C.Pinned;
    PinnedSolves(c, region);
    AlignPrimarySound(d, p, bios, c);
    PinnedResult(AlignPrimary(d, p, bios, c), c, region, d.len);
  }

  lemma PinnedLogical(d: Disk, p: Part, bios: Bios, c: Option<C.Constraint>, skip: int, region: Geom)
    requires bios.Valid() && Alignable(d, p) && p.kind == Logical && C.Pinned(c, region)
    ensures AlignLogical(d, p, bios, c, skip).None? || AlignLogical(d, p, bios, c, skip) == Some(region)
  {
    hide AlignLogical, C.Pinned;
    PinnedSolves(c, region);
    AlignLogicalSound(d, p, bios, c, skip);
    PinnedResult(AlignLogical(d, p, bios, c, skip), c, region, d.len);
  }

  lemma PinnedResult(r: Option<Geom>, c: Option<C.Constraint>, region: Geom, len: int)
    requires C.Pinned(c, region) && Satisfies(r, c, len)
    ensures r.None? || r == Some(region)
  {
    if r.Some? { C.PinnedOnly(c, region, r.value); }
  }

  lemma PinnedPast(d: Disk, p: Part, c: Option<C.Constraint>, region: Geom)
    requires C.Pinned(c, region) && region.Valid() && 1 <= region.start && region.end < d.len && d.len >= 2
    ensures TryConstraint(p.geom, c, Some(PastFirstSector(d.len)), d.len) == Some(region)
  {
    hide C.Pinned;
    C.FromMaxMeaning(Geom(1, d.len - 1), region);
    PinnedSolves(c, region);
    C.PinnedIntersect(c, Some(PastFirstSector(d.len)), region);
    C.PinnedSolved(C.Intersect(c, Some(PastFirstSector(d.len))), region, p.geom, d.len);
  }

  lemma PinnedSolves(c: Option<C.Constraint>, region: Geom)
    requires C.Pinned(c, region)
    ensures c.Some? && C.ValidOpt(c) && C.Solves(c, region) && c.value.minSize == 1
  {
  }

  lemma PinnedMeta(d: Disk, p: Part, c: Option<C.Constraint>, skip: int, region: Geom)
    requires Alignable(d, p) && p.kind == Logical && C.Pinned(c, region) && region.Valid() && 1 <= region.start && region.end < d.len
    requires MetaSpace(d, p, skip).Some? && MetaSpace(d, p, skip).value.Encloses(region)
    ensures TryConstraint(p.geom, c, MetaOverlap(d, p, skip), d.len) == Some(region)
  {
    hide C.Pinned, MetaSpace;
    var m := MetaOverlap(d, p, skip);
    C.FromMaxMeaning(MetaSpace(d, p, skip).value, region);
    PinnedSolves(c, region);
    C.PinnedIntersect(c, m, region);
    C.PinnedSolved(C.Intersect(c, m), region, p.geom, d.len);
  }

  // ---- the table stretch around a logical partition ------------------------------------------------

  function MetaLow(d: Disk, k: nat, num: int): int
    requires HasExt(d) && k < |d.logs|
  {
    (if k == 0 then ExtPart(d).geom.start + 1 else d.logs[k - 1].geom.end + 1) + Not5(num)
  }

  function MetaHigh(d: Disk, k: nat): int
    requires HasExt(d) && k < |d.logs|
  {
    if k + 1 < |d.logs| then d.logs[k + 1].geom.start - 1 - Not5(d.logs[k + 1].num) else ExtPart(d).geom.end
  }

  lemma {:induction false} MetaWalkReaches(s: seq<Part>, k: nat, ext: Geom, i: nat, m: int)
    requires Spaced(s, -1, ext) && AllActive(s) && i <= k < |s|
    requires s[k].num == 5 || s[k].geom.start >= ext.start + 2
    requires m == (if i == 0 then ext.start + 1 else s[i - 1].geom.end + 1) + Not5(s[k].num)
    ensures var (j, r) := MetaWalk(s, k, s[k].num, s[k].geom.start, i, m);
            && (j == k || j == k + 1)
            && r == (if k == 0 then ext.start + 1 else s[k - 1].geom.end + 1) + Not5(s[k].num)
    decreases k - i
  {
    hide Spaced, AllActive;
    if i < k {
      SpacedPair(s, ext, i, k);
      MetaWalkReaches(s, k, ext, i + 1, s[i].geom.end + 1 + Not5(s[k].num));
    } else {
      if k > 0 { SpacedPair(s, ext, k - 1, k); } else { SpacedFirst(s, ext); }
      MetaWalkAt(s, k, ext, m);
    }
  }

  lemma SpacedPair(s: seq<Part>, ext: Geom, i: nat, j: nat)
    requires Spaced(s, -1, ext) && AllActive(s) && i < j < |s|
    ensures s[i].geom.end + 1 + Not5(s[j].num) <= s[j].geom.start && s[i].geom.start <= s[i].geom.end && s[i].kind.Active()
  {
  }

  lemma SpacedFirst(s: seq<Part>, ext: Geom)
    requires Spaced(s, -1, ext) && s != []
    ensures ext.start < s[0].geom.start
  {
  }

  /** The walk has come to the partition itself and goes no further than that. */
  lemma MetaWalkAt(s: seq<Part>, k: nat, ext: Geom, m: int)
    requires Spaced(s, -1, ext) && AllActive(s) && k < |s| && m <= s[k].geom.start
    ensures var (j, r) := MetaWalk(s, k, s[k].num, s[k].geom.start, k, m); (j == k || j == k + 1) && r == m
  {
    hide Spaced, AllActive;
    if k + 1 < |s| { SpacedPair(s, ext, k, k + 1); }
    assert MetaWalk(s, k, s[k].num, s[k].geom.start, k + 1, m) == (k + 1, m);
  }

  /** Asked for its own place, a logical partition gets the stretch between its
      neighbours and their tables, unless that is a single sector. */
  lemma MetaSpaceAt(d: Disk, k: nat)
    requires HasExt(d) && k < |d.logs| && Spaced(d.logs, -1, ExtPart(d).geom) && AllActive(d.logs)
    requires d.logs[k].num == 5 || d.logs[k].geom.start >= ExtPart(d).geom.start + 2
    ensures var lo, hi := MetaLow(d, k, d.logs[k].num), MetaHigh(d, k);
            MetaSpace(d, d.logs[k], k) == if lo >= hi then None else Some(Geom(lo, hi))
  {
    hide MetaWalk, MetaNext;
    var s, ext := d.logs, ExtPart(d).geom;
    MetaWalkReaches(s, k, ext, 0, ext.start + 1 + Not5(s[k].num));
  }

  /** A place kept for the partition elsewhere in that stretch shows that the
      stretch is more than one sector. */
  lemma MetaSpaceWide(d: Disk, p: Part, k: nat, g: Geom)
    requires HasExt(d) && k < |d.logs| && Spaced(d.logs, k, ExtPart(d).geom) && AllActive(d.logs) && g.Valid()
    requires KeepsTables(d, p, k, Some(g)) && BetweenNeighbours(d.logs, k, g)
    ensures MetaLow(d, k, p.num) < MetaHigh(d, k)
  {
    hide MetaWalk, MetaNext;
    var s, ext := d.logs, ExtPart(d).geom;
    MetaWalkFacts(s, k, ext, p.num, p.geom.start, 0, ext.start + 1 + Not5(p.num));
    var (i, m) := MetaWalk(s, k, p.num, p.geom.start, 0, ext.start + 1 + Not5(p.num));
    var next := MetaNext(s, k, i);
    assert forall j :: 0 <= j < k - 1 ==> s[j].geom.end + 1 + Not5(s[k - 1].num) <= s[k - 1].geom.start;
    assert i >= k;
    assert i <= k + 1;
    assert next == k + 1;
  }

  // ---- the way back -----------------------------------------------------------------------------------

  /** An acceptable place for the partition between its neighbours. */
  ghost predicate Returnable(d: Disk, ref: Ref, region: Geom)
    requires Handle(d, ref)
  {
    && region.Valid() && 1 <= region.start && region.end < d.len && Fits32(region)
    && BetweenNeighbours(ListOf(d, ref), ref.k, region)
    && PartAt(d, ref).kind != Extended
    && (ref.Log? ==> var p := PartAt(d, ref).(geom := region);
                     var d2 := d.(logs := d.logs[ref.k := p]);
                     && ExtPart(d).geom.Encloses(region)
                     && MetaSpace(d2, p, ref.k).Some? && MetaSpace(d2, p, ref.k).value.Encloses(region))
  }

  /** Asked for exactly that place, the partition is put there. */
  lemma ExactBack(d: Disk, ref: Ref, region: Geom, env: Env)
    requires Sound(d, env) && env.Valid() && !d.clobber && Usable(d) && Handle(d, ref)
    requires Returnable(d, ref, region)
    ensures SetGeomCore(d, ref, Some(C.Exact(region, d.len)), region.start, region.end, env)
            == Changed(SetPart(d, ref, PartAt(d, ref).(geom := region)))
  {
    hide Sound, CheckPartition, FreeStretch, RawAdd, RawRemove, OverlapConstraint, Align, C.Intersect, MetaSpace, C.Pinned, Level,
         OneExtended, C.Exact;
    SoundUsable(d, env);
    var p, c := PartAt(d, ref), Some(C.Exact(region, d.len));
    var over := OverlapConstraint(d, p.kind, ref.k, region.start);
    BackOverlap(d, ref, region, env);
    C.ExactPinned(region, d.len);
    PinnedSolves(c, region);
    C.PinnedIntersect(over, c, region);
    var both := C.Intersect(over, c);
    PinnedSolves(both, region);
    var p1 := p.(geom := region);
    SetPartExt(d, ref, p1);
    BackKind(d, ref, env);
    AlignPinned(SetPart(d, ref, p1), p1, both, ref.k, env, region);
    BackChecks(d, ref, region, env);
    SamePlace(d, ref, region);
  }

  lemma BackKind(d: Disk, ref: Ref, env: Env)
    requires Sound(d, env) && Handle(d, ref) && PartAt(d, ref).kind != Extended
    ensures PartAt(d, ref).kind == Normal || (PartAt(d, ref).kind == Logical && env.scheme.Msdos?)
  {
    if ref.Log? { AllLogical(d); } else { PrimKind(d, ref.k); }
  }

  lemma BackOverlap(d: Disk, ref: Ref, region: Geom, env: Env)
    requires Sound(d, env) && Handle(d, ref) && Returnable(d, ref, region) && Overlappable(d, PartAt(d, ref).kind)
    ensures var over := OverlapConstraint(d, PartAt(d, ref).kind, ref.k, region.start);
            C.ValidOpt(over) && C.Solves(over, region) && over.value.minSize == 1
  {
    hide FreeStretch, MetaSpace, Level, OneExtended, PrimNums, LogNums;
    var kind := PartAt(d, ref).kind;
    StretchAround(d, ref, region.start);
    OverlapIsMax(d, kind, ref.k, region.start);
    C.FromMaxMeaning(FreeStretch(d, kind, ref.k, region.start).value, region);
  }

  lemma BackChecks(d: Disk, ref: Ref, region: Geom, env: Env)
    requires Sound(d, env) && Handle(d, ref) && Returnable(d, ref, region)
    ensures var p := PartAt(d, ref).(geom := region);
            CheckPartition(SetPart(d, ref, p), p, Some(ref))
  {
    hide MetaSpace, PrimNums, LogNums, OneExtended, BetweenNeighbours, Ordered;
    var p := PartAt(d, ref).(geom := region);
    SetPartExt(d, ref, p);
    if ref.Prim? && HasExt(d) { BackOutside(d.prims, ref.k, ExtIndex(d.prims), region); }
  }

  /** A place between its neighbours is outside every other entry. */
  lemma BackOutside(s: seq<Part>, k: nat, e: nat, region: Geom)
    requires Ordered(s) && k < |s| && e < |s| && e != k && BetweenNeighbours(s, k, region) && region.Valid()
    ensures !s[e].geom.Encloses(region)
  {
    assert s[e].geom.Valid();
    if e < k - 1 { assert s[e].geom.end < s[k - 1].geom.start; assert s[k - 1].geom.Valid(); }
    if k + 1 < e { assert s[k + 1].geom.end < s[e].geom.start; assert s[k + 1].geom.Valid(); }
  }

  // ---- maximizing ---------------------------------------------------------------------------------------

  /** `ped_disk_maximize_partition` on the table of partitions: ask for the widest
      region; when that fails, ask for the old one under a free constraint. */
  function MaximizeCore(d: Disk, ref: Ref, c: Option<C.Constraint>, env: Env): (r: (Disk, bool))
    requires Usable(d) && Handle(d, ref) && C.ValidOpt(c) && env.Valid()
    requires 0 <= WidestStart(d, ref) <= WidestEnd(d, ref) && PartAt(d, ref).geom.Valid()
    ensures r.0.mode == d.mode
  {
    var r := SetGeomCore(d, ref, c, WidestStart(d, ref), WidestEnd(d, ref), env);
    if r.Changed? then (r.disk, true)
    else
      var p := PartAt(d, ref);
      var back := SetGeomCore(d, ref, Some(C.AnyOn(d.len)), p.geom.start, p.geom.end, env);
      (if back.Changed? then back.disk else d, false)
  }

  /** A successful `ped_disk_get_max_partition_geometry` leaves every partition as it
      was, and its closing assertion holds: the widened partition is put back by
      the exact constraint. */
  lemma MaxGeometryRestores(d: Disk, ref: Ref, c: Option<C.Constraint>, env: Env)
    requires Sound(d, env) && env.Valid() && C.ValidOpt(c) && !d.clobber && Usable(d) && Handle(d, ref)
    requires PartAt(d, ref).kind != Extended
    requires 0 <= WidestStart(d, ref) <= WidestEnd(d, ref) && PartAt(d, ref).geom.Valid()
    requires MaximizeCore(d, ref, c, env).1
    ensures var d1 := MaximizeCore(d, ref, c, env).0;
            var was := PartAt(d, ref).geom;
            && Sound(d1, env) && Usable(d1) && Handle(d1, ref) && C.Solves(c, PartAt(d1, ref).geom)
            && SetGeomCore(d1, ref, Some(C.Exact(was, d.len)), was.start, was.end, env) == Changed(d)
  {
    hide SetGeomCore, Sound, KeepsTables, BetweenNeighbours, C.Exact, Returnable;
    var was, p := PartAt(d, ref).geom, PartAt(d, ref);
    SetGeomSound(d, ref, c, WidestStart(d, ref), WidestEnd(d, ref), env);
    var g := WidestStays(d, ref, c, env);
    var d1 := MaximizeCore(d, ref, c, env).0;
    WidestOrdered(d, ref, env);
    SoundUsable(d1, env);
    SetPartExt(d, ref, p.(geom := g));
    MaxReturnable(d, ref, g, env);
    ExactBack(d1, ref, was, env);
    assert SetPart(d1, ref, p) == d by { SetBack(d, ref, p.(geom := g)); }
  }

  lemma SetBack(d: Disk, ref: Ref, q: Part)
    requires RefOk(d, ref)
    ensures SetPart(SetPart(d, ref, q), ref, PartAt(d, ref)) == d
  {
    match ref
    case Prim(k) => assert d.prims[k := q][k := d.prims[k]] == d.prims;
    case Log(k) => assert d.logs[k := q][k := d.logs[k]] == d.logs;
  }

  /** The old place is still acceptable after widening. */
  lemma MaxReturnable(d: Disk, ref: Ref, g: Geom, env: Env)
    requires Sound(d, env) && Handle(d, ref) && PartAt(d, ref).kind != Extended && g.Valid()
    requires BetweenNeighbours(ListOf(d, ref), ref.k, g)
    requires BetweenNeighbours(ListOf(d, ref), ref.k, PartAt(d, ref).geom)
    requires PartAt(d, ref).geom.Valid() && PartAt(d, ref).geom.end < d.len
    requires ref.Log? ==> env.scheme.Msdos? && PartAt(d, ref).kind == Logical
    requires ref.Log? ==> 0 <= WidestStart(d, ref)
                          && var p := PartAt(d, ref).(geom := Geom(WidestStart(d, ref), WidestEnd(d, ref)));
                             KeepsTables(d.(logs := d.logs[ref.k := p]), p, ref.k, Some(g))
    ensures var d1 := SetPart(d, ref, PartAt(d, ref).(geom := g));
            Handle(d1, ref) && Returnable(d1, ref, PartAt(d, ref).geom)
  {
    hide MetaSpace, KeepsTables, PrimNums, LogNums, Level, OneExtended;
    var p := PartAt(d, ref);
    var d1 := SetPart(d, ref, p.(geom := g));
    SetPartExt(d, ref, p.(geom := g));
    match ref
    case Prim(k) =>
    case Log(k) =>
      assert d1.logs[k := p] == d.logs;
      assert d1.(logs := d1.logs[k := p]) == d;
      LogReturn(d, k, g, env);
      LevelOf(d, ref, env);
      assert d.logs[k].geom == p.geom;
  }

  /** The place of a logical partition lies in the stretch kept for tables. */
  lemma LogReturn(d: Disk, k: nat, g: Geom, env: Env)
    requires Sound(d, env) && env.scheme.Msdos? && HasExt(d) && k < |d.logs| && Handle(d, Log(k)) && g.Valid()
    requires 0 <= WidestStart(d, Log(k)) && BetweenNeighbours(d.logs, k, g)
    requires var p := d.logs[k].(geom := Geom(WidestStart(d, Log(k)), WidestEnd(d, Log(k))));
             KeepsTables(d.(logs := d.logs[k := p]), p, k, Some(g))
    ensures MetaSpace(d, d.logs[k], k).Some? && MetaSpace(d, d.logs[k], k).value.Encloses(d.logs[k].geom)
  {
    hide MetaSpace, KeepsTables, PrimNums, LogNums, Level, OneExtended;
    var ext := ExtPart(d).geom;
    var p := d.logs[k].(geom := Geom(WidestStart(d, Log(k)), WidestEnd(d, Log(k))));
    var dw := d.(logs := d.logs[k := p]);
    LevelOf(d, Log(k), env);
    GapsOf(d);
    GapsSpaced(d.logs, ext);
    assert AllActive(dw.logs);
    SpacedAfterMove(d.logs, k, p, ext);
    MetaSpaceWide(dw, p, k, g);
    LogDistance(d, k);
    GapsAround(d, k);
    MetaSpaceAt(d, k);
  }

  lemma SpacedAfterMove(s: seq<Part>, k: nat, p: Part, ext: Geom)
    requires Spaced(s, -1, ext) && k < |s|
    ensures Spaced(s[k := p], k, ext)
  {
  }

  lemma GapsAround(d: Disk, k: nat)
    requires HasExt(d) && k < |d.logs| && AllGaps(d.logs, ExtPart(d).geom)
    ensures var ext := ExtPart(d).geom;
            GapBefore(d.logs, ext, k) && GapBefore(d.logs, ext, 0) && (k + 1 < |d.logs| ==> GapBefore(d.logs, ext, k + 1))
  {
  }
}
