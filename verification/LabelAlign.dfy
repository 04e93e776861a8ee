/** How the labels move a partition to an acceptable place: the internal
    constraints of libparted/labels/dos.c:1748-2297 and libparted/labels/bsd.c. */
module LabelAlign {
  import opened CInt
  import opened Geometry
  import A = Alignment
  import C = Constraint
  import opened PartList
  import opened Disk

  /** `_try_constraint`, `_ped_partition_attempt_align` */
  function TryConstraint(geom: Geom, external: Option<C.Constraint>, internal: Option<C.Constraint>, len: int): (r: Option<Geom>)
    requires C.ValidOpt(external) && C.ValidOpt(internal)
  {
    C.SolveNearest(C.Intersect(external, internal), geom, len)
  }

  /** `_best_solution`: the earlier head on one cylinder, else the nearer start. */
  function BestSolution(start: int, bios: Bios, a: Option<Geom>, b: Option<Geom>): (r: Option<Geom>)
    requires bios.Valid()
    ensures r == a || r == b
    ensures a.Some? || b.Some? ==> r.Some?
  {
    CylinderPositive(bios);
    if a.None? then b
    else if b.None? then a
    else if Quot(a.value.start, bios.CylinderSize()) == Quot(b.value.start, bios.CylinderSize()) then
      if Rem(Quot(a.value.start, bios.sectors), bios.heads) < Rem(Quot(b.value.start, bios.sectors), bios.heads)
      then a else b
    else if Abs(start - a.value.start) < Abs(start - b.value.start) then a
    else b
  }

  /** A constraint without size limits of its own; absent when a range is. */
  function Between(startAlign: Option<A.Align>, endAlign: Option<A.Align>,
                   startRange: Option<Geom>, endRange: Option<Geom>, len: int): (r: Option<C.Constraint>)
    requires A.ValidOpt(startAlign) && A.ValidOpt(endAlign) && len > 0
    requires (startRange.Some? ==> startRange.value.Valid()) && (endRange.Some? ==> endRange.value.Valid())
    ensures C.ValidOpt(r)
    ensures r.Some? ==> startRange.Some? && r.value.startRange == startRange.value
  {
    if startRange.None? || endRange.None? then None
    else Some(C.New(startAlign, endAlign, startRange.value, endRange.value, 1, len))
  }

  // ---- primary partitions --------------------------------------------------------------

  /** `_primary_constraint` */
  function PrimaryConstraint(len: int, bios: Bios, min: Option<Geom>): (r: Option<C.Constraint>)
    requires bios.Valid() && len >= 2 && (min.Some? ==> 0 <= min.value.end)
    ensures C.ValidOpt(r)
    ensures r.Some? ==> r.value.startRange.start >= 1
  {
    CylinderPositive(bios);
    var cyl := bios.CylinderSize();
    var first := if cyl < len then cyl else 1;
    if min.Some? then
      if min.value.start < cyl then None
      else Between(A.New(0, cyl), A.New(-1, cyl), Make(cyl, min.value.start + 1 - cyl),
                   Make(min.value.end, len - min.value.end), len)
    else Between(A.New(0, cyl), A.New(-1, cyl), Make(first, len - first), Make(0, len), len)
  }

  /** `_primary_start_constraint` */
  function PrimaryStartConstraint(len: int, start: int, bios: Bios, min: Option<Geom>): (r: Option<C.Constraint>)
    requires bios.Valid() && len >= 2 && (min.Some? ==> 0 <= min.value.end)
    ensures C.ValidOpt(r)
    ensures r.Some? ==> r.value.startRange.start >= 1
  {
    CylinderPositive(bios);
    var cyl := bios.CylinderSize();
    var pos := if start == 2048 then 2048 else bios.sectors;
    if min.Some?
    then Between(A.New(pos, 0), A.New(-1, cyl), Make(pos, 1), Make(min.value.end, len - min.value.end), len)
    else Between(A.New(pos, 0), A.New(-1, cyl), Make(pos, len - pos), Make(0, len), len)
  }

  /** The loop of `_get_min_extended_part_geom`. */
  function MinExtWalk(s: seq<Part>, head: int, g: Geom): Geom
  {
    if s == [] then g
    else if !s[0].kind.Active() || s[0].num == 5 then MinExtWalk(s[1..], head, g)
    else
      var start := if s[0].geom.start < g.start then s[0].geom.start - 2 * head else g.start;
      var end := Max(s[0].geom.end, g.end);
      MinExtWalk(s[1..], head, Geom(start, end))
  }

  /** `_get_min_extended_part_geom`: what the extended partition must contain. */
  function MinExtGeom(d: Disk, head: int): Option<Geom>
  {
    var k := NumIndex(d.logs, 5);
    if k < 0 then None
    else Some(MinExtWalk(d.logs, head, Geom(d.logs[k].geom.start - Max(head, 2), d.logs[k].geom.end)))
  }

  lemma {:induction false} MinExtEnd(s: seq<Part>, head: int, g: Geom)
    ensures MinExtWalk(s, head, g).end >= g.end
    decreases |s|
  {
    if s != [] {
      var start := if s[0].geom.start < g.start then s[0].geom.start - 2 * head else g.start;
      MinExtEnd(s[1..], head, if !s[0].kind.Active() || s[0].num == 5 then g else Geom(start, Max(s[0].geom.end, g.end)));
    }
  }

  /** Entries are at sector 0 or later. */
  predicate NonNegative(s: seq<Part>) {
    forall i :: 0 <= i < |s| ==> s[i].geom.Valid()
  }

  function ExtMinimum(d: Disk, p: Part, head: int): (r: Option<Geom>)
    requires NonNegative(d.logs)
    ensures r.Some? ==> r.value.end >= 0
  {
    if p.kind != Extended then None
    else
      var k := NumIndex(d.logs, 5);
      if k < 0 then None
      else
        MinExtEnd(d.logs, head, Geom(d.logs[k].geom.start - Max(head, 2), d.logs[k].geom.end));
        MinExtGeom(d, head)
  }

  /** `_align_primary` */
  function AlignPrimary(d: Disk, p: Part, bios: Bios, c: Option<C.Constraint>): Option<Geom>
    requires bios.Valid() && d.len >= 2 && NonNegative(d.logs) && C.ValidOpt(c)
  {
    var min := ExtMinimum(d, p, bios.sectors);
    var s1 := BestSolution(p.geom.start, bios, None,
                TryConstraint(p.geom, c, PrimaryStartConstraint(d.len, p.geom.start, bios, min), d.len));
    BestSolution(p.geom.start, bios, s1,
      TryConstraint(p.geom, c, PrimaryConstraint(d.len, bios, min), d.len))
  }

  /** `_no_geom_constraint (disk, 1, length - 1)`, also bsd's `_get_constraint` */
  function PastFirstSector(len: int): (r: C.Constraint)
    requires len >= 2
    ensures r.Solvable() && r.startRange == Geom(1, len - 1)
  {
    C.FromMax(Geom(1, len - 1))
  }

  /** `_no_geom_extended_constraint` */
  function NoGeomExtended(d: Disk, p: Part): (r: Option<C.Constraint>)
    requires d.len >= 2 && NonNegative(d.logs) && p.kind == Extended
    ensures C.ValidOpt(r)
    ensures r.Some? ==> r.value.startRange.start >= 1
  {
    var min := ExtMinimum(d, p, 1);
    if min.Some?
    then Between(Some(A.Any), Some(A.Any), Make(1, min.value.start), Make(min.value.end, d.len - min.value.end), d.len)
    else Between(Some(A.Any), Some(A.Any), Make(1, d.len - 1), Make(1, d.len - 1), d.len)
  }

  /** `_align_primary_no_geom` */
  function AlignPrimaryNoGeom(d: Disk, p: Part, c: Option<C.Constraint>): Option<Geom>
    requires d.len >= 2 && NonNegative(d.logs) && C.ValidOpt(c)
  {
    if p.kind == Extended
    then TryConstraint(p.geom, c, NoGeomExtended(d, p), d.len)
    else TryConstraint(p.geom, c, Some(PastFirstSector(d.len)), d.len)
  }

  // ---- logical partitions ---------------------------------------------------------------

  /** The walk of `_log_meta_overlap_constraint`; `skip` is the position of the
      partition being placed, or -1. */
  function MetaWalk(s: seq<Part>, skip: int, num: int, start: int, i: nat, minStart: int): (r: (nat, int))
    requires i <= |s|
    ensures i <= r.0 <= |s|
    decreases |s| - i
  {
    if i < |s| && (s[i].geom.start - Not5(s[i].num) < start - Not5(num)
                   || s[i].geom.start - Not5(s[i].num) <= minStart)
    then MetaWalk(s, skip, num, start, i + 1,
                  if i != skip && s[i].kind.Active() then s[i].geom.end + 1 + Not5(num) else minStart)
    else (i, minStart)
  }

  function MetaNext(s: seq<Part>, skip: int, i: nat): (k: nat)
    requires i <= |s|
    ensures i <= k <= |s|
    ensures forall j :: i <= j < k ==> j == skip || !s[j].kind.Active()
    ensures k < |s| ==> k != skip && s[k].kind.Active()
    decreases |s| - i
  {
    if i < |s| && (i == skip || !s[i].kind.Active()) then MetaNext(s, skip, i + 1) else i
  }

  /** `_log_meta_overlap_constraint`: the stretch that leaves room for the tables. */
  function MetaSpace(d: Disk, p: Part, skip: int): (r: Option<Geom>)
    requires HasExt(d)
  {
    var ext := ExtPart(d).geom;
    var (i, minStart) := MetaWalk(d.logs, skip, p.num, p.geom.start, 0, ext.start + 1 + Not5(p.num));
    var k := MetaNext(d.logs, skip, i);
    var maxEnd := if k < |d.logs| then d.logs[k].geom.start - 1 - Not5(d.logs[k].num) else ext.end;
    if minStart >= maxEnd then None else Some(Geom(minStart, maxEnd))
  }

  function MetaOverlap(d: Disk, p: Part, skip: int): (r: Option<C.Constraint>)
    requires HasExt(d) && NonNegative(d.logs) && ExtPart(d).geom.start >= 0
    ensures C.ValidOpt(r)
    ensures r.Some? <==> MetaSpace(d, p, skip).Some?
  {
    MetaWalkNonNeg(d.logs, skip, p.num, p.geom.start, 0, ExtPart(d).geom.start + 1 + Not5(p.num));
    var space := MetaSpace(d, p, skip);
    if space.None? then None else Some(C.FromMax(space.value))
  }

  lemma {:induction false} MetaWalkNonNeg(s: seq<Part>, skip: int, num: int, start: int, i: nat, minStart: int)
    requires i <= |s| && minStart >= 0 && NonNegative(s)
    ensures MetaWalk(s, skip, num, start, i, minStart).1 >= 0
    decreases |s| - i
  {
    if i < |s| && (s[i].geom.start - Not5(s[i].num) < start - Not5(num)
                   || s[i].geom.start - Not5(s[i].num) <= minStart) {
      MetaWalkNonNeg(s, skip, num, start, i + 1,
                     if i != skip && s[i].kind.Active() then s[i].geom.end + 1 + Not5(num) else minStart);
    }
  }

  /** `_logical_constraint` */
  function LogicalConstraint(d: Disk, bios: Bios, offset: int, isStart: bool): (r: Option<C.Constraint>)
    requires bios.Valid() && d.len >= 2 && HasExt(d) && ExtPart(d).geom.Valid()
    ensures C.ValidOpt(r)
  {
    CylinderPositive(bios);
    var cyl := bios.CylinderSize();
    var ext := ExtPart(d).geom;
    var minStart := A.RoundUpTo(ext.start + 1, cyl);
    A.RoundUpMeaning(ext.start + 1, cyl);
    var max := if isStart then Some(ext)
               else if minStart >= ext.end then None
               else Make(minStart, ext.end - minStart + 1);
    Between(A.New(offset, cyl), A.New(-1, cyl), max, max, d.len)
  }

  /** `_logical_min_start_head` */
  function MinStartHead(num: int, bios: Bios, ext: Geom, isStartExt: bool): int
    requires bios.Valid()
  {
    CylinderPositive(bios);
    (if isStartExt then 1 + Quot(Rem(ext.start, bios.CylinderSize()), bios.sectors) else 0) + Not5(num)
  }

  /** The loop of `_align_logical` over the heads. */
  function AlignHeads(d: Disk, p: Part, bios: Bios, c: Option<C.Constraint>, head: int, best: Option<Geom>): Option<Geom>
    requires bios.Valid() && d.len >= 2 && HasExt(d) && ExtPart(d).geom.Valid() && C.ValidOpt(c)
    decreases Min(5, bios.heads) - head
  {
    if head >= Min(5, bios.heads) then best
    else
      CylinderPositive(bios);
      var start := A.RoundDownTo(p.geom.start, bios.CylinderSize()) + head * bios.sectors;
      var atStart := head >= MinStartHead(p.num, bios, ExtPart(d).geom, true);
      var found := TryConstraint(p.geom, c, LogicalConstraint(d, bios, start, atStart), d.len);
      AlignHeads(d, p, bios, c, head + 1, BestSolution(p.geom.start, bios, best, found))
  }

  /** `_align_logical` */
  function AlignLogical(d: Disk, p: Part, bios: Bios, c: Option<C.Constraint>, skip: int): Option<Geom>
    requires bios.Valid() && d.len >= 2 && HasExt(d) && ExtPart(d).geom.Valid() && NonNegative(d.logs) && C.ValidOpt(c)
  {
    var both := C.Intersect(c, MetaOverlap(d, p, skip));
    if both.None? then None
    else AlignHeads(d, p, bios, both, MinStartHead(p.num, bios, ExtPart(d).geom, false), None)
  }

  // ---- the label's align operation ----------------------------------------------------------

  /** What `_partition_align` may rely on. */
  predicate Alignable(d: Disk, p: Part) {
    && d.len >= 2 && NonNegative(d.logs)
    && (p.kind == Logical ==> HasExt(d) && ExtPart(d).geom.Valid())
  }

  /** `msdos_partition_align`, `bsd_partition_align`; `skip` is the position of the
      partition in its list, or -1 when it is not in the table yet. */
  function Align(d: Disk, p: Part, c: Option<C.Constraint>, skip: int, env: Env): Option<Geom>
    requires Alignable(d, p) && C.ValidOpt(c) && env.Valid()
  {
    match env.scheme
    case Bsd => TryConstraint(p.geom, c, Some(PastFirstSector(d.len)), d.len)
    case Msdos(cylinderAlign) =>
      var bios := env.probe(p);
      var aligned := if !cylinderAlign then None
                     else if p.kind == Logical then AlignLogical(d, p, bios, c, skip)
                     else AlignPrimary(d, p, bios, c);
      if aligned.Some? then aligned
      else if p.kind == Logical then TryConstraint(p.geom, c, MetaOverlap(d, p, skip), d.len)
      else AlignPrimaryNoGeom(d, p, c)
  }

  // ---- what the operation guarantees -----------------------------------------------------------

  /** A place found for the partition solves the caller's constraint. */
  predicate Satisfies(g: Option<Geom>, c: Option<C.Constraint>, len: int)
    requires C.ValidOpt(c)
  {
    g.Some? ==> g.value.Valid() && g.value.end < len && C.Solves(c, g.value)
  }

  lemma TrySound(geom: Geom, c: Option<C.Constraint>, internal: Option<C.Constraint>, len: int)
    requires C.ValidOpt(c) && C.ValidOpt(internal)
    ensures Satisfies(TryConstraint(geom, c, internal, len), c, len)
    ensures Satisfies(TryConstraint(geom, c, internal, len), internal, len)
  {
    var both := C.Intersect(c, internal);
    var r := TryConstraint(geom, c, internal, len);
    if both.Some? {
      C.SolveSound(both.value, geom, len);
      if r.Some? { C.IntersectExact(c, internal, r.value); }
    }
  }

  predicate StartsPastFirst(g: Option<Geom>) {
    g.Some? ==> g.value.start >= 1
  }

  lemma TryPastFirst(geom: Geom, c: Option<C.Constraint>, internal: Option<C.Constraint>, len: int)
    requires C.ValidOpt(c) && C.ValidOpt(internal)
    requires internal.Some? ==> internal.value.startRange.start >= 1
    ensures StartsPastFirst(TryConstraint(geom, c, internal, len))
  {
    hide TryConstraint;
    TrySound(geom, c, internal, len);
  }

  lemma AlignPrimarySound(d: Disk, p: Part, bios: Bios, c: Option<C.Constraint>)
    requires bios.Valid() && d.len >= 2 && NonNegative(d.logs) && C.ValidOpt(c)
    ensures Satisfies(AlignPrimary(d, p, bios, c), c, d.len) && StartsPastFirst(AlignPrimary(d, p, bios, c))
  {
    hide TryConstraint, BestSolution, PrimaryStartConstraint, PrimaryConstraint, ExtMinimum, C.Solves;
    var min := ExtMinimum(d, p, bios.sectors);
    TrySound(p.geom, c, PrimaryStartConstraint(d.len, p.geom.start, bios, min), d.len);
    TryPastFirst(p.geom, c, PrimaryStartConstraint(d.len, p.geom.start, bios, min), d.len);
    TrySound(p.geom, c, PrimaryConstraint(d.len, bios, min), d.len);
    TryPastFirst(p.geom, c, PrimaryConstraint(d.len, bios, min), d.len);
  }

  lemma AlignPrimaryNoGeomSound(d: Disk, p: Part, c: Option<C.Constraint>)
    requires d.len >= 2 && NonNegative(d.logs) && C.ValidOpt(c)
    ensures Satisfies(AlignPrimaryNoGeom(d, p, c), c, d.len) && StartsPastFirst(AlignPrimaryNoGeom(d, p, c))
  {
    hide TryConstraint, NoGeomExtended, PastFirstSector;
    if p.kind == Extended {
      TrySound(p.geom, c, NoGeomExtended(d, p), d.len);
      TryPastFirst(p.geom, c, NoGeomExtended(d, p), d.len);
    } else {
      TrySound(p.geom, c, Some(PastFirstSector(d.len)), d.len);
      TryPastFirst(p.geom, c, Some(PastFirstSector(d.len)), d.len);
    }
  }

  lemma {:induction false} AlignHeadsSound(d: Disk, p: Part, bios: Bios, c: Option<C.Constraint>, head: int, best: Option<Geom>)
    requires bios.Valid() && d.len >= 2 && HasExt(d) && ExtPart(d).geom.Valid() && C.ValidOpt(c)
    requires Satisfies(best, c, d.len)
    ensures Satisfies(AlignHeads(d, p, bios, c, head, best), c, d.len)
    decreases Min(5, bios.heads) - head
  {
    hide TryConstraint, BestSolution, LogicalConstraint, Satisfies, MinStartHead;
    if head < Min(5, bios.heads) {
      CylinderPositive(bios);
      var start := A.RoundDownTo(p.geom.start, bios.CylinderSize()) + head * bios.sectors;
      var atStart := head >= MinStartHead(p.num, bios, ExtPart(d).geom, true);
      TrySound(p.geom, c, LogicalConstraint(d, bios, start, atStart), d.len);
      var found := TryConstraint(p.geom, c, LogicalConstraint(d, bios, start, atStart), d.len);
      AlignHeadsSound(d, p, bios, c, head + 1, BestSolution(p.geom.start, bios, best, found));
    }
  }

  /** The stretch kept for tables encloses a place found for a logical partition. */
  predicate KeepsTables(d: Disk, p: Part, skip: int, g: Option<Geom>)
    requires HasExt(d)
  {
    g.Some? ==> MetaSpace(d, p, skip).Some? && MetaSpace(d, p, skip).value.Encloses(g.value)
  }

  lemma MetaOverlapSound(d: Disk, p: Part, skip: int, g: Option<Geom>)
    requires HasExt(d) && NonNegative(d.logs) && ExtPart(d).geom.start >= 0
    requires Satisfies(g, MetaOverlap(d, p, skip), d.len)
    ensures KeepsTables(d, p, skip, g)
  {
    if g.Some? {
      C.FromMaxMeaning(MetaSpace(d, p, skip).value, g.value);
    }
  }

  lemma AlignLogicalSound(d: Disk, p: Part, bios: Bios, c: Option<C.Constraint>, skip: int)
    requires bios.Valid() && d.len >= 2 && HasExt(d) && ExtPart(d).geom.Valid() && NonNegative(d.logs) && C.ValidOpt(c)
    ensures Satisfies(AlignLogical(d, p, bios, c, skip), c, d.len)
    ensures KeepsTables(d, p, skip, AlignLogical(d, p, bios, c, skip))
  {
    hide AlignHeads, MetaOverlap, KeepsTables, C.Intersect, MinStartHead;
    var m := MetaOverlap(d, p, skip);
    var both := C.Intersect(c, m);
    var r := AlignLogical(d, p, bios, c, skip);
    if both.Some? {
      AlignHeadsSound(d, p, bios, both, MinStartHead(p.num, bios, ExtPart(d).geom, false), None);
      if r.Some? { C.IntersectExact(c, m, r.value); }
    }
    MetaOverlapSound(d, p, skip, r);
  }

  /** Every place the label finds satisfies the caller's constraint, stays off the
      first sector, and for msdos logical partitions keeps the table sectors free. */
  lemma AlignSound(d: Disk, p: Part, c: Option<C.Constraint>, skip: int, env: Env)
    requires Alignable(d, p) && C.ValidOpt(c) && env.Valid()
    ensures var r := Align(d, p, c, skip, env);
            && Satisfies(r, c, d.len)
            && (p.kind != Logical || env.scheme.Bsd? ==> StartsPastFirst(r))
            && (p.kind == Logical && env.scheme.Msdos? ==> KeepsTables(d, p, skip, r))
  {
    hide TryConstraint, AlignLogical, AlignPrimary, AlignPrimaryNoGeom, Satisfies, StartsPastFirst, KeepsTables,
         PastFirstSector, MetaOverlap;
    match env.scheme
    case Bsd =>
      TrySound(p.geom, c, Some(PastFirstSector(d.len)), d.len);
      TryPastFirst(p.geom, c, Some(PastFirstSector(d.len)), d.len);
    case Msdos(_) =>
      var bios := env.probe(p);
      if p.kind == Logical {
        AlignLogicalSound(d, p, bios, c, skip);
        TrySound(p.geom, c, MetaOverlap(d, p, skip), d.len);
        MetaOverlapSound(d, p, skip, TryConstraint(p.geom, c, MetaOverlap(d, p, skip), d.len));
      } else {
        AlignPrimarySound(d, p, bios, c);
        AlignPrimaryNoGeomSound(d, p, c);
      }
  }
}
