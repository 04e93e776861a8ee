/** Partitions and the lists they are kept in (libparted/disk.c).  A list is a
    sequence; the links that hold it together are modelled in LinkedList.dfy. */
module PartList {
  import opened CInt
  import opened Geometry

  /** The values of `PedPartitionType` that occur, as combinations of its bits. */
  datatype Kind = Normal | Logical | Extended | Free | LogicalFree | Meta | LogicalMeta {
    /** the PED_PARTITION_LOGICAL bit */
    predicate InExtended() {
      Logical? || LogicalFree? || LogicalMeta?
    }

    predicate IsFree() {
      Free? || LogicalFree?
    }

    predicate IsMeta() {
      Meta? || LogicalMeta?
    }

    /** `ped_partition_is_active` */
    predicate Active() {
      Normal? || Logical? || Extended?
    }
  }

  const UNNUMBERED := -1

  /** `system` and `boot` are the data the msdos label keeps for a partition. */
  datatype Part = Part(kind: Kind, geom: Geom, num: int, system: byte, boot: bool)

  function Placeholder(kind: Kind, start: int, end: int): Part {
    Part(kind, Geom(start, end), UNNUMBERED, 0, false)
  }

  // ---- order ---------------------------------------------------------------

  /** Sorted by start and pairwise disjoint. */
  ghost predicate Ordered(s: seq<Part>) {
    && (forall i :: 0 <= i < |s| ==> s[i].geom.Valid())
    && (forall i, j :: 0 <= i < j < |s| ==> s[i].geom.end < s[j].geom.start)
  }

  ghost predicate Within(s: seq<Part>, lo: int, hi: int) {
    forall i :: 0 <= i < |s| ==> lo <= s[i].geom.start && s[i].geom.end <= hi
  }

  predicate ApartFrom(s: seq<Part>, geom: Geom) {
    forall i :: 0 <= i < |s| ==> Apart(s[i].geom, geom)
  }

  /** Where `_disk_raw_add` stops: the first entry that starts behind `end`. */
  function InsertPoint(s: seq<Part>, end: int): (k: nat)
    ensures k <= |s|
    ensures forall i :: 0 <= i < k ==> s[i].geom.start <= end
    ensures k < |s| ==> s[k].geom.start > end
  {
    if s == [] || s[0].geom.start > end then 0 else 1 + InsertPoint(s[1..], end)
  }

  function InsertAt(s: seq<Part>, k: nat, p: Part): seq<Part>
    requires k <= |s|
  {
    s[..k] + [p] + s[k..]
  }

  /** `_disk_raw_add` */
  function Insert(s: seq<Part>, p: Part): seq<Part> {
    InsertAt(s, InsertPoint(s, p.geom.end), p)
  }

  /** `_disk_raw_remove` */
  function RemoveAt(s: seq<Part>, k: nat): seq<Part>
    requires k < |s|
  {
    s[..k] + s[k + 1..]
  }

  /** Inserting a region apart from the others keeps the list in order. */
  lemma InsertOrdered(s: seq<Part>, p: Part)
    requires Ordered(s) && p.geom.Valid() && ApartFrom(s, p.geom)
    ensures Ordered(Insert(s, p))
  {
    hide Insert;
    var k, r := InsertPoint(s, p.geom.end), Insert(s, p);
    InsertEntries(s, p);
    forall i | 0 <= i < |r| ensures r[i].geom.Valid() {
      if i < k { assert s[i].geom.Valid(); } else if i > k { assert s[i - 1].geom.Valid(); }
    }
    forall i, j | 0 <= i < j < |r| ensures r[i].geom.end < r[j].geom.start {
      if j < k {
        assert s[i].geom.end < s[j].geom.start;
      } else if j == k {
        assert s[i].geom.start <= p.geom.end && Apart(s[i].geom, p.geom);
      } else if i < k {
        assert s[i].geom.end < s[j - 1].geom.start;
      } else if i == k {
        BehindPoint(s, p.geom.end, j - 1);
      } else {
        assert s[i - 1].geom.end < s[j - 1].geom.start;
      }
    }
  }

  lemma BehindPoint(s: seq<Part>, end: int, j: nat)
    requires Ordered(s) && InsertPoint(s, end) <= j < |s|
    ensures s[j].geom.start > end
  {
    var k := InsertPoint(s, end);
    assert s[k].geom.Valid();
    if k < j { assert s[k].geom.end < s[j].geom.start; }
  }

  lemma InsertEntries(s: seq<Part>, p: Part)
    ensures var r, k := Insert(s, p), InsertPoint(s, p.geom.end);
            && |r| == |s| + 1 && r[k] == p
            && (forall i :: 0 <= i < k ==> r[i] == s[i])
            && (forall i :: k < i < |r| ==> r[i] == s[i - 1])
  {
  }

  lemma RemoveOrdered(s: seq<Part>, k: nat)
    requires Ordered(s) && k < |s|
    ensures Ordered(RemoveAt(s, k))
    ensures forall i :: 0 <= i < |s| - 1 ==> RemoveAt(s, k)[i] == s[if i < k then i else i + 1]
  {
  }

  /** In an ordered list, putting back what was taken out gives the list back. */
  lemma InsertRemoved(s: seq<Part>, k: nat)
    requires Ordered(s) && k < |s|
    ensures Insert(RemoveAt(s, k), s[k]) == s
  {
    var r := RemoveAt(s, k);
    RemoveOrdered(s, k);
    InsertPointIs(r, s[k].geom.end, k);
    assert r[..k] == s[..k] && r[k..] == s[k + 1..];
  }

  lemma InsertPointIs(s: seq<Part>, end: int, k: nat)
    requires k <= |s|
    requires forall i :: 0 <= i < k ==> s[i].geom.start <= end
    requires k < |s| ==> s[k].geom.start > end
    ensures InsertPoint(s, end) == k
  {
  }

  // ---- the free stretch around a wanted start --------------------------------

  /** The walk of `_partition_get_overlap_constraint` from entry `i` on; `skip` is
      the position of the partition being placed, or -1.  Gives where it stops
      and the least start it leaves. */
  function GapWalk(s: seq<Part>, skip: int, start: int, i: nat, minStart: int): (r: (nat, int))
    requires i <= |s|
    ensures i <= r.0 <= |s|
    decreases |s| - i
  {
    if i < |s| && (s[i].geom.start < start || minStart >= s[i].geom.start)
    then GapWalk(s, skip, start, i + 1, if i != skip then s[i].geom.end + 1 else minStart)
    else (i, minStart)
  }

  /** The free stretch, bounded by `lo` and `hi` where there is no neighbour. */
  function Gap(s: seq<Part>, skip: int, start: int, lo: int, hi: int): (r: Option<Geom>)
    ensures r.Some? ==> r.value.start <= r.value.end
  {
    var (i, minStart) := GapWalk(s, skip, start, 0, lo);
    var next := if i == skip then i + 1 else i;
    var maxEnd := if next < |s| then s[next].geom.start - 1 else hi;
    if minStart > maxEnd then None else Some(Geom(minStart, maxEnd))
  }

  lemma {:induction false} GapWalkFacts(s: seq<Part>, skip: int, start: int, i: nat, minStart: int)
    requires Ordered(s) && i <= |s|
    requires forall j :: 0 <= j < i && j != skip ==> s[j].geom.end < minStart
    ensures var (k, m) := GapWalk(s, skip, start, i, minStart);
            && (forall j :: 0 <= j < k && j != skip ==> s[j].geom.end < m)
            && (k < |s| ==> m < s[k].geom.start && start <= s[k].geom.start)
            && (m == minStart || exists j :: i <= j < k && j != skip && m == s[j].geom.end + 1)
    decreases |s| - i
  {
    if i < |s| && (s[i].geom.start < start || minStart >= s[i].geom.start) {
      GapWalkFacts(s, skip, start, i + 1, if i != skip then s[i].geom.end + 1 else minStart);
    }
  }

  /** Every region inside the stretch is apart from all other entries. */
  lemma GapIsFree(s: seq<Part>, skip: int, start: int, lo: int, hi: int, geom: Geom)
    requires Ordered(s) && Within(s, lo, hi) && geom.Valid()
    requires Gap(s, skip, start, lo, hi).Some? && Gap(s, skip, start, lo, hi).value.Encloses(geom)
    ensures forall j :: 0 <= j < |s| && j != skip ==> Apart(s[j].geom, geom)
    ensures lo <= geom.start && geom.end <= hi
  {
    GapWalkFacts(s, skip, start, 0, lo);
    var (k, m) := GapWalk(s, skip, start, 0, lo);
    var next := if k == skip then k + 1 else k;
    forall j | 0 <= j < |s| && j != skip ensures Apart(s[j].geom, geom) {
      if next < j { assert s[next].geom.end < s[j].geom.start; }
    }
  }

  /** The neighbours of position `k` bound the stretch around it. */
  function Before(s: seq<Part>, k: nat, lo: int): int
    requires k <= |s|
  {
    if k == 0 then lo else s[k - 1].geom.end + 1
  }

  function Behind(s: seq<Part>, k: nat, hi: int): int
    requires k <= |s|
  {
    if k == |s| then hi else s[k].geom.start - 1
  }

  /** A start between the neighbours of position `skip` gives exactly the stretch
      between these neighbours, wherever the entry itself lies. */
  lemma GapAround(s: seq<Part>, skip: nat, start: int, lo: int, hi: int)
    requires Ordered(s) && Within(s, lo, hi) && skip < |s|
    requires Before(s, skip, lo) <= start <= Behind(s, skip + 1, hi)
    ensures Gap(s, skip, start, lo, hi) == Some(Geom(Before(s, skip, lo), Behind(s, skip + 1, hi)))
  {
    GapWalkReaches(s, skip, start, 0, lo, lo);
  }

  lemma {:induction false} GapWalkReaches(s: seq<Part>, skip: nat, start: int, i: nat, minStart: int, lo: int)
    requires Ordered(s) && skip < |s| && i <= skip && lo <= start
    requires minStart == Before(s, i, lo)
    requires Before(s, skip, lo) <= start
    requires skip + 1 < |s| ==> start < s[skip + 1].geom.start
    requires forall j :: 0 <= j < |s| ==> lo <= s[j].geom.start
    ensures var (k, m) := GapWalk(s, skip, start, i, minStart);
            (k == skip || k == skip + 1) && m == Before(s, skip, lo)
    decreases skip - i
  {
    if i < skip {
      assert s[i].geom.start < start by {
        if i < skip - 1 { assert s[i].geom.end < s[skip - 1].geom.start; }
      }
      GapWalkReaches(s, skip, start, i + 1, s[i].geom.end + 1, lo);
    } else if skip + 1 < |s| {
      var c := s[i].geom.start < start || minStart >= s[i].geom.start;
      if c { assert GapWalk(s, skip, start, i, minStart) == GapWalk(s, skip, start, i + 1, minStart); }
    }
  }

  /** A region apart from all entries lies in the stretch around its start. */
  lemma GapHolds(s: seq<Part>, geom: Geom, lo: int, hi: int)
    requires Ordered(s) && Within(s, lo, hi) && geom.Valid()
    requires ApartFrom(s, geom) && lo <= geom.start && geom.end <= hi
    ensures Gap(s, -1, geom.start, lo, hi).Some?
    ensures Gap(s, -1, geom.start, lo, hi).value.Encloses(geom)
  {
    GapWalkStays(s, geom, 0, lo);
    var (k, m) := GapWalk(s, -1, geom.start, 0, lo);
    GapWalkFacts(s, -1, geom.start, 0, lo);
    if k < |s| { assert Apart(s[k].geom, geom); }
  }

  lemma {:induction false} GapWalkStays(s: seq<Part>, geom: Geom, i: nat, minStart: int)
    requires Ordered(s) && geom.Valid() && ApartFrom(s, geom) && i <= |s| && minStart <= geom.start
    ensures GapWalk(s, -1, geom.start, i, minStart).1 <= geom.start
    decreases |s| - i
  {
    if i < |s| && (s[i].geom.start < geom.start || minStart >= s[i].geom.start) {
      assert Apart(s[i].geom, geom);
      GapWalkStays(s, geom, i + 1, s[i].geom.end + 1);
    }
  }

  // ---- active entries ---------------------------------------------------------

  function Actives(s: seq<Part>): (r: seq<Part>)
    ensures |r| <= |s|
  {
    if s == [] then []
    else (if s[0].kind.Active() then [s[0]] else []) + Actives(s[1..])
  }

  ghost predicate AllActive(s: seq<Part>) {
    forall i :: 0 <= i < |s| ==> s[i].kind.Active()
  }

  lemma {:induction false} ActivesConcat(s: seq<Part>, t: seq<Part>)
    ensures Actives(s + t) == Actives(s) + Actives(t)
  {
    if s == [] {
      assert s + t == t;
    } else {
      var x := if s[0].kind.Active() then [s[0]] else [];
      ActivesConcat(s[1..], t);
      assert (s + t)[0] == s[0] && (s + t)[1..] == s[1..] + t;
      assert Actives(s + t) == x + (Actives(s[1..]) + Actives(t));
      assert x + (Actives(s[1..]) + Actives(t)) == (x + Actives(s[1..])) + Actives(t);
    }
  }

  lemma ActivesHead(t: seq<Part>)
    requires t != []
    ensures Actives(t) == if t[0].kind.Active() then [t[0]] + Actives(t[1..]) else Actives(t[1..])
  {
  }

  lemma {:induction false} ActivesOfActives(s: seq<Part>)
    requires AllActive(s)
    ensures Actives(s) == s
  {
    if s != [] { ActivesOfActives(s[1..]); }
  }

  lemma ActivesInsertInactive(s: seq<Part>, p: Part)
    requires !p.kind.Active()
    ensures Actives(Insert(s, p)) == Actives(s)
  {
    var k := InsertPoint(s, p.geom.end);
    ActivesConcat(s[..k] + [p], s[k..]);
    ActivesConcat(s[..k], [p]);
    ActivesConcat(s[..k], s[k..]);
    assert s[..k] + s[k..] == s;
    assert Actives([p]) == [] by { assert [p][1..] == []; }
  }

  // ---- filling the holes -------------------------------------------------------

  /** The loop of `_disk_alloc_freespace` and `_alloc_extended_freespace`. */
  function FillFree(s: seq<Part>, lastEnd: int, hi: int, kind: Kind): seq<Part>
  {
    if s == [] then
      if lastEnd < hi then [Placeholder(kind, lastEnd + 1, hi)] else []
    else
      (if s[0].geom.start > lastEnd + 1
       then [Placeholder(kind, lastEnd + 1, s[0].geom.start - 1)] else [])
      + [s[0]] + FillFree(s[1..], s[0].geom.end, hi, kind)
  }

  /** `s` covers lo..hi without holes or overlaps, in order. */
  predicate Tiles(s: seq<Part>, lo: int, hi: int) {
    if s == [] then lo == hi + 1
    else s[0].geom.start == lo && s[0].geom.Valid() && Tiles(s[1..], s[0].geom.end + 1, hi)
  }

  lemma OrderedTail(s: seq<Part>)
    requires Ordered(s) && s != []
    ensures Ordered(s[1..])
    ensures forall lo, hi :: Within(s, lo, hi) ==> Within(s[1..], s[0].geom.end + 1, hi)
  {
  }

  lemma {:induction false} FillTiles(s: seq<Part>, lastEnd: int, hi: int, kind: Kind)
    requires Ordered(s) && Within(s, lastEnd + 1, hi) && -1 <= lastEnd <= hi
    ensures Tiles(FillFree(s, lastEnd, hi, kind), lastEnd + 1, hi)
  {
    var r := FillFree(s, lastEnd, hi, kind);
    if s == [] {
      if lastEnd < hi { assert r[1..] == []; }
    } else {
      OrderedTail(s);
      var rest := FillFree(s[1..], s[0].geom.end, hi, kind);
      FillTiles(s[1..], s[0].geom.end, hi, kind);
      if s[0].geom.start > lastEnd + 1 {
        assert r[1..] == [s[0]] + rest;
        assert r[1..][1..] == rest;
      } else {
        assert r == [s[0]] + rest;
        assert r[1..] == rest;
      }
    }
  }

  lemma {:induction false} FillKeepsActives(s: seq<Part>, lastEnd: int, hi: int, kind: Kind)
    requires !kind.Active()
    ensures Actives(FillFree(s, lastEnd, hi, kind)) == Actives(s)
  {
    if s == [] {
      if lastEnd < hi { assert [Placeholder(kind, lastEnd + 1, hi)][1..] == []; }
    } else {
      hide Actives, FillFree;
      var rest := FillFree(s[1..], s[0].geom.end, hi, kind);
      FillKeepsActives(s[1..], s[0].geom.end, hi, kind);
      FillIs(s, lastEnd, hi, kind);
      ActivesHead(s);
      ActivesPrepend(s[0], rest);
      if s[0].geom.start > lastEnd + 1 { ActivesPrepend(Placeholder(kind, lastEnd + 1, s[0].geom.start - 1), [s[0]] + rest); }
    }
  }

  function WithGap(p: Part, lastEnd: int, kind: Kind, rest: seq<Part>): seq<Part> {
    if p.geom.start > lastEnd + 1 then [Placeholder(kind, lastEnd + 1, p.geom.start - 1)] + ([p] + rest) else [p] + rest
  }

  lemma FillIs(s: seq<Part>, lastEnd: int, hi: int, kind: Kind)
    requires s != []
    ensures FillFree(s, lastEnd, hi, kind) == WithGap(s[0], lastEnd, kind, FillFree(s[1..], s[0].geom.end, hi, kind))
  {
    var rest := FillFree(s[1..], s[0].geom.end, hi, kind);
    if s[0].geom.start > lastEnd + 1 {
      var gap := [Placeholder(kind, lastEnd + 1, s[0].geom.start - 1)];
      assert (gap + [s[0]]) + rest == gap + ([s[0]] + rest);
    } else {
      assert ([] + [s[0]]) + rest == [s[0]] + rest;
    }
  }

  lemma ActivesPrepend(p: Part, s: seq<Part>)
    ensures Actives([p] + s) == (if p.kind.Active() then [p] else []) + Actives(s)
  {
    assert ([p] + s)[1..] == s;
  }

  /** A tiling has exactly one entry on each sector of its range, and none elsewhere. */
  lemma {:induction false} TilesCover(s: seq<Part>, lo: int, hi: int, sector: int) returns (k: int)
    requires Tiles(s, lo, hi) && lo <= hi + 1
    ensures lo <= sector <= hi ==> 0 <= k < |s| && s[k].geom.Contains(sector)
    ensures forall i :: 0 <= i < |s| && s[i].geom.Contains(sector) ==> lo <= sector <= hi && i == k
  {
    k := -1;
    if s != [] {
      TilesBound(s[1..], s[0].geom.end + 1, hi);
      var j := TilesCover(s[1..], s[0].geom.end + 1, hi, sector);
      if s[0].geom.Contains(sector) {
        k := 0;
      } else {
        k := if s[0].geom.end < sector <= hi then j + 1 else -1;
      }
      forall i | 0 <= i < |s| && s[i].geom.Contains(sector) ensures lo <= sector <= hi && i == k {
        if i > 0 { assert s[i] == s[1..][i - 1]; }
      }
    }
  }

  lemma {:induction false} TilesBound(s: seq<Part>, lo: int, hi: int)
    requires Tiles(s, lo, hi)
    ensures lo <= hi + 1
  {
    if s != [] { TilesBound(s[1..], s[0].geom.end + 1, hi); }
  }

  lemma {:induction false} TilesOrdered(s: seq<Part>, lo: int, hi: int)
    requires Tiles(s, lo, hi)
    ensures Ordered(s) && Within(s, lo, hi)
  {
    if s != [] {
      TilesOrdered(s[1..], s[0].geom.end + 1, hi);
      TilesBound(s[1..], s[0].geom.end + 1, hi);
    }
  }
}
