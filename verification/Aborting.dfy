/** When the assertion of `add_logical_part_metadata` fails (libparted/labels/dos.c:2328-2366):
    the loop over the logical numbers on a list in which one partition was left at a
    place that it was refused. */
module Aborting {
  import opened CInt
  import opened Geometry
  import A = Alignment
  import opened PartList
  import opened Disk
  import opened DiskLayout
  import opened Tiling
  import opened DiskOps
  import opened DiskInvariant

  // ---- the loop on the list alone ----------------------------------------------------------------

  function PrevEnd(s: seq<Part>, ext: Geom, q: nat): int
    requires q < |s|
  {
    if q == 0 then ext.start else s[q - 1].geom.end
  }

  /** What the loop does with one partition: it goes on, it is stopped by a placeholder
      that does not fit, or its assertion fails. */
  datatype Event = Passes | Stops | Aborts

  function TableStart(x: Part, prevEnd: int, bios: Bios): int
    requires bios.Valid()
  {
    CylinderPositive(bios);
    Max(A.RoundDownTo(x.geom.start - 1, bios.CylinderSize()), prevEnd + 1)
  }

  /** Number 5 needs no table of its own in front of it. */
  predicate Skipped(x: Part, prevEnd: int, bios: Bios)
    requires bios.Valid()
  {
    x.num == 5 && x.geom.start - TableStart(x, prevEnd, bios) < bios.sectors
  }

  function TableEvent(x: Part, prevEnd: int, ext: Geom, len: int, bios: Bios): Event
    requires bios.Valid()
  {
    var start, end := TableStart(x, prevEnd, bios), x.geom.start - 1;
    if Skipped(x, prevEnd, bios) then Passes
    else if end < start then Aborts
    else if !ext.Encloses(Geom(start, end)) || end >= len then Stops
    else Passes
  }

  /** The list after partition `q` has passed. */
  function AfterTable(s: seq<Part>, ext: Geom, bios: Bios, q: nat): seq<Part>
    requires bios.Valid() && q < |s|
  {
    var prev := PrevEnd(s, ext, q);
    if Skipped(s[q], prev, bios) then s
    else Insert(s, Placeholder(LogicalMeta, TableStart(s[q], prev, bios), s[q].geom.start - 1))
  }

  function AbortsFrom(s: seq<Part>, ext: Geom, len: int, bios: Bios, i: int): bool
    requires bios.Valid()
    decreases MAX_TOTAL_PART + 1 - i
  {
    var q := NumIndex(s, i);
    if q < 0 || i > MAX_TOTAL_PART then false
    else
      match TableEvent(s[q], PrevEnd(s, ext, q), ext, len, bios)
      case Aborts => true
      case Stops => false
      case Passes => AbortsFrom(AfterTable(s, ext, bios, q), ext, len, bios, i + 1)
  }

  /** The loop of the label fails its assertion exactly when the one on the list does. */
  lemma {:induction false} LoopAborts(d: Disk, env: Env, i: int)
    requires env.Valid() && HasExt(d)
    ensures AddLogMetas(d, env, i).AssertFails? <==> AbortsFrom(d.logs, ExtPart(d).geom, d.len, env.probe(ExtPart(d)), i)
    decreases MAX_TOTAL_PART + 1 - i
  {
    hide Insert, A.RoundDownTo;
    var q := NumIndex(d.logs, i);
    if q >= 0 && i <= MAX_TOTAL_PART {
      var bios := env.probe(ExtPart(d));
      LoopStep(d, bios, q);
      var r := AddLogMeta(d, bios, q);
      if r.Allocated? { LoopAborts(r.disk, env, i + 1); }
    }
  }

  lemma LoopStep(d: Disk, bios: Bios, q: nat)
    requires bios.Valid() && HasExt(d) && q < |d.logs|
    ensures var ext, prev := ExtPart(d).geom, PrevEnd(d.logs, ExtPart(d).geom, q);
            match TableEvent(d.logs[q], prev, ext, d.len, bios)
            case Aborts => AddLogMeta(d, bios, q).AssertFails?
            case Stops => AddLogMeta(d, bios, q).Stopped?
            case Passes => AddLogMeta(d, bios, q) == Allocated(d.(logs := AfterTable(d.logs, ext, bios, q)))
  {
    hide Insert, A.RoundDownTo;
  }

  // ---- the list while the loop runs -----------------------------------------------------------------

  /** `s` is `l` with unnumbered placeholders; `pos` says where its entries are. */
  ghost predicate Spread(s: seq<Part>, l: seq<Part>, pos: seq<nat>) {
    && |pos| == |l|
    && (forall x :: 0 <= x < |pos| ==> pos[x] < |s| && s[pos[x]] == l[x])
    && (forall x, y :: 0 <= x < y < |pos| ==> pos[x] < pos[y])
    && (forall q :: 0 <= q < |s| && s[q].num != UNNUMBERED ==> q in pos)
  }

  /** The entries of `l` are in order and disjoint, but for entry `k`. */
  ghost predicate OrderedBut(l: seq<Part>, k: int) {
    && (forall x :: 0 <= x < |l| ==> l[x].geom.start <= l[x].geom.end)
    && (forall x, y :: 0 <= x < y < |l| && x != k && y != k ==> l[x].geom.end < l[y].geom.start)
  }

  /** Entries that are still to come, other than `k`, have their own predecessor. */
  ghost predicate Pending(s: seq<Part>, l: seq<Part>, pos: seq<nat>, ext: Geom, k: int, i: int)
    requires Spread(s, l, pos)
  {
    forall x :: 0 <= x < |l| && x != k && l[x].num >= i ==> PrevEnd(s, ext, pos[x]) == PrevEnd(l, ext, x)
  }

  lemma FoundAt(s: seq<Part>, l: seq<Part>, pos: seq<nat>, i: int) returns (x: int)
    requires Spread(s, l, pos) && LogNums(l, |l|) && (forall y :: 0 <= y < |l| ==> l[y].kind == Logical) && i >= 5
    ensures if i <= 4 + |l| then 0 <= x < |l| && l[x].num == i && NumIndex(s, i) == pos[x] else NumIndex(s, i) < 0
  {
    x := -1;
    assert NumIndex(s, i) >= 0 ==> NumIndex(s, i) in pos;
    if i <= 4 + |l| {
      assert NumIn(l, i);
      x :| 0 <= x < |l| && HasNum(l[x], i);
      assert HasNum(s[pos[x]], i);
      var q := NumIndex(s, i);
      var y :| 0 <= y < |pos| && pos[y] == q;
      assert x == y;
    }
  }

  function Shift(pos: seq<nat>, t: nat): seq<nat> {
    seq(|pos|, x requires 0 <= x < |pos| => if pos[x] >= t then pos[x] + 1 else pos[x])
  }

  lemma SpreadInsert(s: seq<Part>, l: seq<Part>, pos: seq<nat>, p: Part)
    requires Spread(s, l, pos) && p.num == UNNUMBERED
    ensures Spread(Insert(s, p), l, Shift(pos, InsertPoint(s, p.geom.end)))
  {
    hide Insert, Shift, Spread;
    var t := InsertPoint(s, p.geom.end);
    var r, f := Insert(s, p), Shift(pos, t);
    ShiftPlaces(s, l, pos, p);
    assert Spread(r, l, f) by {
      forall q | 0 <= q < |r| && r[q].num != UNNUMBERED ensures q in f { ShiftHas(s, l, pos, p, q); }
      SpreadIf(r, l, f);
    }
  }

  lemma SpreadIf(s: seq<Part>, l: seq<Part>, pos: seq<nat>)
    requires |pos| == |l|
    requires forall x :: 0 <= x < |pos| ==> pos[x] < |s| && s[pos[x]] == l[x]
    requires forall x, y :: 0 <= x < y < |pos| ==> pos[x] < pos[y]
    requires forall q :: 0 <= q < |s| && s[q].num != UNNUMBERED ==> q in pos
    ensures Spread(s, l, pos)
  {
  }

  lemma ShiftPlaces(s: seq<Part>, l: seq<Part>, pos: seq<nat>, p: Part)
    requires Spread(s, l, pos)
    ensures var r, f := Insert(s, p), Shift(pos, InsertPoint(s, p.geom.end));
            && |f| == |l|
            && (forall x :: 0 <= x < |f| ==> f[x] < |r| && r[f[x]] == l[x])
            && (forall x, y :: 0 <= x < y < |f| ==> f[x] < f[y])
  {
    hide Insert, Shift, Spread;
    var t := InsertPoint(s, p.geom.end);
    var r, f := Insert(s, p), Shift(pos, t);
    assert |f| == |l| by { ShiftLen(s, l, pos, t); }
    InsertEntries(s, p);
    forall x | 0 <= x < |f| ensures f[x] < |r| && r[f[x]] == l[x] { SpreadAt(s, l, pos, x); ShiftAt(pos, t, x); }
    forall x, y | 0 <= x < y < |f| ensures f[x] < f[y] { SpreadMono(s, l, pos, x, y); ShiftAt(pos, t, x); ShiftAt(pos, t, y); }
  }

  lemma ShiftLen(s: seq<Part>, l: seq<Part>, pos: seq<nat>, t: nat)
    requires Spread(s, l, pos)
    ensures |pos| == |l| && |Shift(pos, t)| == |l|
  {
  }

  lemma SpreadMono(s: seq<Part>, l: seq<Part>, pos: seq<nat>, x: nat, y: nat)
    requires Spread(s, l, pos) && x < y < |l|
    ensures |pos| == |l| && pos[x] < pos[y]
  {
  }

  lemma ShiftHas(s: seq<Part>, l: seq<Part>, pos: seq<nat>, p: Part, q: nat)
    requires Spread(s, l, pos) && p.num == UNNUMBERED && q < |Insert(s, p)| && Insert(s, p)[q].num != UNNUMBERED
    ensures q in Shift(pos, InsertPoint(s, p.geom.end))
  {
    hide Insert;
    var t := InsertPoint(s, p.geom.end);
    InsertEntries(s, p);
    var o := if q < t then q else q - 1;
    assert Insert(s, p)[q] == s[o] && o in pos;
    var x :| 0 <= x < |pos| && pos[x] == o;
    assert Shift(pos, t)[x] == q;
  }

  lemma PrevInsert(s: seq<Part>, p: Part, ext: Geom, q: nat)
    requires q < |s|
    ensures var r, t := Insert(s, p), InsertPoint(s, p.geom.end);
            var q' := if q >= t then q + 1 else q;
            q' < |r| && PrevEnd(r, ext, q') == if q == t then p.geom.end else PrevEnd(s, ext, q)
  {
    hide Insert;
    InsertEntries(s, p);
  }

  /** A placeholder goes right before its own partition, or before entry `k` when that
      has been left behind it in the list. */
  lemma PointIs(s: seq<Part>, l: seq<Part>, pos: seq<nat>, k: int, x: nat, z: nat)
    requires Spread(s, l, pos) && OrderedBut(l, k) && x < |l| && z < |l| && z != x
    requires pos[z] == InsertPoint(s, l[x].geom.start - 1)
    requires x == k ==> forall y :: 0 <= y < k ==> l[y].geom.start < l[k].geom.start
    ensures z == k && z < x && l[x].geom.start <= l[k].geom.start
  {
    assert s[pos[x]] == l[x] && s[pos[z]] == l[z];
    assert pos[z] <= pos[x];
    assert z < x;
  }

  lemma StepPending(s: seq<Part>, l: seq<Part>, pos: seq<nat>, ext: Geom, k: int, x: nat, p: Part)
    requires Spread(s, l, pos) && OrderedBut(l, k) && x < |l| && Pending(s, l, pos, ext, k, l[x].num)
    requires p.num == UNNUMBERED && p.geom.end == l[x].geom.start - 1
    requires x == k ==> forall y :: 0 <= y < k ==> l[y].geom.start < l[k].geom.start
    ensures var f := Shift(pos, InsertPoint(s, p.geom.end));
            Spread(Insert(s, p), l, f) && Pending(Insert(s, p), l, f, ext, k, l[x].num + 1)
  {
    hide Insert, PrevEnd, OrderedBut, Shift, Spread;
    var t := InsertPoint(s, p.geom.end);
    var r, f := Insert(s, p), Shift(pos, t);
    SpreadInsert(s, l, pos, p);
    SpreadAt(s, l, pos, x);
    ShiftLen(s, l, pos, t);
    forall z | 0 <= z < |l| && z != k && l[z].num >= l[x].num + 1
      ensures f[z] < |r| && PrevEnd(r, ext, f[z]) == PrevEnd(l, ext, z)
    {
      SpreadAt(s, l, pos, z);
      SpreadAt(r, l, f, z);
      ShiftAt(pos, t, z);
      PrevInsert(s, p, ext, pos[z]);
      if pos[z] == t { PointIs(s, l, pos, k, x, z); }
    }
  }

  lemma ShiftAt(pos: seq<nat>, t: nat, x: nat)
    requires x < |pos|
    ensures |Shift(pos, t)| == |pos| && Shift(pos, t)[x] == if pos[x] >= t then pos[x] + 1 else pos[x]
  {
  }

  /** What the step does to the predecessor of entry `k`. */
  lemma StepMoved(s: seq<Part>, l: seq<Part>, pos: seq<nat>, ext: Geom, k: nat, x: nat, p: Part)
    requires Spread(s, l, pos) && OrderedBut(l, k) && x < |l| && k < |l| && x != k
    requires p.num == UNNUMBERED && p.geom.end == l[x].geom.start - 1
    ensures var t := InsertPoint(s, p.geom.end);
            && Spread(Insert(s, p), l, Shift(pos, t))
            && (pos[k] != t ==> PrevEnd(Insert(s, p), ext, Shift(pos, t)[k]) == PrevEnd(s, ext, pos[k]))
            && (pos[k] == t ==> k < x && l[x].geom.start <= l[k].geom.start && PrevEnd(Insert(s, p), ext, Shift(pos, t)[k]) == p.geom.end)
  {
    hide Insert, PrevEnd, OrderedBut, Shift, Spread;
    var t := InsertPoint(s, p.geom.end);
    SpreadInsert(s, l, pos, p);
    SpreadAt(s, l, pos, k);
    SpreadAt(s, l, pos, x);
    ShiftAt(pos, t, k);
    PrevInsert(s, p, ext, pos[k]);
    if pos[k] == t { PointIs(s, l, pos, k, x, k); }
  }

  // ---- one partition left at a refused place -----------------------------------------------------------

  /** The logical partitions `l` of a sound table, entry `k` left elsewhere. */
  datatype Left = Left(l: seq<Part>, ext: Geom, len: int, bios: Bios, k: nat) {
    ghost predicate Valid() {
      && bios.Valid() && ext.Valid() && ext.end < len && k < |l| && |l| <= MAX_TOTAL_PART - 4
      && LogNums(l, |l|) && (forall x :: 0 <= x < |l| ==> l[x].kind == Logical)
      && OrderedBut(l, k) && InsideBut(l, ext, k) && RoomyBut(l, ext, k)
    }

    function Event(x: Part, prevEnd: int): Event
      requires bios.Valid()
    {
      TableEvent(x, prevEnd, ext, len, bios)
    }

    /** An earlier number behind the next partition starts on the very sector: its
        placeholder comes to lie right before entry `k`. */
    predicate Blocks(y: int)
      requires k < |l|
    {
      k + 2 <= y < |l| && l[y].num < l[k].num && l[y].geom.start == l[k].geom.start
    }

    predicate Blocked()
      requires k < |l|
    {
      exists y :: 0 <= y < |l| && Blocks(y)
    }

    function Moved(): Event
      requires bios.Valid() && k < |l|
    {
      Event(l[k], if Blocked() then l[k].geom.start - 1 else PrevEnd(l, ext, k))
    }

    /** The next partition finds entry `k` in front of it. */
    function Next(): Event
      requires bios.Valid() && k < |l|
    {
      if k + 1 < |l| then Event(l[k + 1], l[k].geom.end) else Passes
    }

    /** What the loop comes to: only entry `k` and the next one can end it, and the one
        with the smaller number is asked first. */
    function Outcome(): Event
      requires bios.Valid() && k < |l|
    {
      if k + 1 < |l| && l[k + 1].num < l[k].num
      then if Next().Passes? then Moved() else Next()
      else if Moved().Passes? then Next() else Moved()
    }

    /** The next partition has no room for its table. */
    predicate Crowded()
      requires k < |l|
    {
      k + 1 < |l| && l[k + 1].num != 5 && l[k + 1].geom.start <= l[k].geom.end + 1
    }
  }

  ghost predicate InsideBut(l: seq<Part>, ext: Geom, k: nat) {
    forall x :: 0 <= x < |l| && x != k ==> ext.start < l[x].geom.start && l[x].geom.end <= ext.end
  }

  ghost predicate RoomyBut(l: seq<Part>, ext: Geom, k: nat) {
    forall x :: 0 <= x < |l| && x != k && x != k + 1 ==> l[x].geom.start >= PrevEnd(l, ext, x) + 1 + Not5(l[x].num)
  }

  lemma TableBelow(x: Part, bios: Bios)
    requires bios.Valid() && x.geom.start >= 1
    ensures A.RoundDownTo(x.geom.start - 1, bios.CylinderSize()) <= x.geom.start - 1
  {
    CylinderPositive(bios);
    A.RoundDownMeaning(x.geom.start - 1, bios.CylinderSize());
  }

  /** Any other partition passes. */
  lemma OthersPass(c: Left, x: nat)
    requires c.Valid() && x < |c.l| && x != c.k && x != c.k + 1
    ensures c.Event(c.l[x], PrevEnd(c.l, c.ext, x)) == Passes
  {
    hide A.RoundDownTo, LogNums, OrderedBut, RoomyBut, InsideBut;
    assert c.ext.start < c.l[x].geom.start <= c.l[x].geom.end <= c.ext.end by { OneInside(c, x); }
    TableBelow(c.l[x], c.bios);
    OneRoomy(c, x);
  }

  lemma OneInside(c: Left, x: nat)
    requires c.Valid() && x < |c.l| && x != c.k
    ensures c.ext.start < c.l[x].geom.start <= c.l[x].geom.end <= c.ext.end
  {
    hide LogNums, RoomyBut;
  }

  lemma OneRoomy(c: Left, x: nat)
    requires c.Valid() && x < |c.l| && x != c.k && x != c.k + 1
    ensures c.l[x].geom.start >= PrevEnd(c.l, c.ext, x) + 1 + Not5(c.l[x].num)
    ensures PrevEnd(c.l, c.ext, x) >= c.ext.start
  {
    hide LogNums, OrderedBut, InsideBut;
    if x > 0 { OneInside(c, x - 1); }
  }

  /** Entries in front of entry `k` end at its old predecessor at the latest. */
  lemma FrontEnds(c: Left, y: nat)
    requires c.Valid() && y < c.k
    ensures c.l[y].geom.end <= PrevEnd(c.l, c.ext, c.k) && c.l[y].geom.start <= c.l[y].geom.end
  {
    hide LogNums, RoomyBut, InsideBut;
    if y < c.k - 1 { assert c.l[y].geom.end < c.l[c.k - 1].geom.start; }
  }

  /** The state of the loop. */
  ghost predicate At(c: Left, s: seq<Part>, pos: seq<nat>, i: int) {
    c.Valid() && 5 <= i && Spread(s, c.l, pos) && Pending(s, c.l, pos, c.ext, c.k, i)
  }

  /** The end in front of entry `k` at this point. */
  function Before(c: Left, s: seq<Part>, pos: seq<nat>): int
    requires c.k < |pos| && pos[c.k] < |s|
  {
    PrevEnd(s, c.ext, pos[c.k])
  }

  /** One number passes. */
  lemma Pass(c: Left, s: seq<Part>, pos: seq<nat>, i: int, x: nat) returns (pos': seq<nat>)
    requires At(c, s, pos, i) && x < |c.l| && c.l[x].num == i
    requires x == c.k ==> !Skipped(c.l[x], PrevEnd(s, c.ext, pos[x]), c.bios) ==> PrevEnd(c.l, c.ext, c.k) < c.l[c.k].geom.start
    ensures At(c, AfterTable(s, c.ext, c.bios, pos[x]), pos', i + 1)
    ensures pos' == if Skipped(c.l[x], PrevEnd(s, c.ext, pos[x]), c.bios) then pos
                    else Shift(pos, InsertPoint(s, c.l[x].geom.start - 1))
    ensures var s' := AfterTable(s, c.ext, c.bios, pos[x]);
            x != c.k ==> || Before(c, s', pos') == Before(c, s, pos)
                         || (&& c.k < x && c.l[x].geom.start <= c.l[c.k].geom.start && Before(c, s', pos') == c.l[x].geom.start - 1
                             && !Skipped(c.l[x], PrevEnd(s, c.ext, pos[x]), c.bios))
  {
    hide Insert, PrevEnd, OrderedBut, Shift, LogNums, TableStart, Spread, InsideBut, RoomyBut;
    SpreadAt(s, c.l, pos, x);
    SpreadAt(s, c.l, pos, c.k);
    var prev := PrevEnd(s, c.ext, pos[x]);
    if Skipped(c.l[x], prev, c.bios) {
      pos' := pos;
    } else {
      var p := Placeholder(LogicalMeta, TableStart(c.l[x], prev, c.bios), c.l[x].geom.start - 1);
      pos' := Shift(pos, InsertPoint(s, p.geom.end));
      if x == c.k { forall y | 0 <= y < c.k ensures c.l[y].geom.start < c.l[c.k].geom.start { FrontEnds(c, y); } }
      StepPending(s, c.l, pos, c.ext, c.k, x, p);
      if x != c.k { StepMoved(s, c.l, pos, c.ext, c.k, x, p); }
    }
  }

  lemma SpreadAt(s: seq<Part>, l: seq<Part>, pos: seq<nat>, x: nat)
    requires Spread(s, l, pos) && x < |l|
    ensures |pos| == |l| && pos[x] < |s| && s[pos[x]] == l[x]
  {
  }

  // ---- the next partition is crowded --------------------------------------------------------------------

  lemma CrowdedAborts(c: Left)
    requires c.Valid() && c.Crowded()
    ensures c.Event(c.l[c.k + 1], c.l[c.k].geom.end) == Aborts
  {
    hide LogNums, OrderedBut, RoomyBut, InsideBut, A.RoundDownTo;
  }

  /** Where the placeholder of entry `k` would end outside the extended partition, the
      loop is stopped, whatever is in front of the entry. */
  lemma MovedStops(c: Left, prev: int)
    requires c.Valid() && c.l[c.k].num != 5 && c.ext.start <= prev <= c.ext.end
    ensures c.Event(c.l[c.k], prev) == Stops <==> c.l[c.k].geom.start - 1 > c.ext.end
  {
    hide LogNums, OrderedBut, RoomyBut, InsideBut, A.RoundDownTo;
    if c.l[c.k].geom.start >= 1 { TableBelow(c.l[c.k], c.bios); }
  }

  lemma MovedAt(c: Left)
    requires c.Valid()
    ensures c.ext.start <= PrevEnd(c.l, c.ext, c.k) <= c.ext.end
    ensures c.l[c.k].num != 5 ==> (c.Moved() == Stops <==> c.l[c.k].geom.start - 1 > c.ext.end)
  {
    hide LogNums, OrderedBut, RoomyBut, InsideBut, TableEvent;
    if c.k > 0 { OneInside(c, c.k - 1); }
    if c.l[c.k].num != 5 {
      MovedStops(c, PrevEnd(c.l, c.ext, c.k));
      if c.Blocked() {
        var y :| 0 <= y < |c.l| && c.Blocks(y);
        OneInside(c, y);
        MovedStops(c, c.l[c.k].geom.start - 1);
      }
    }
  }

  /** While entry `k` is still to come, what is in front of it lies inside. */
  ghost predicate CrowdedAt(c: Left, s: seq<Part>, pos: seq<nat>, i: int)
    requires At(c, s, pos, i)
  {
    i <= c.l[c.k].num ==>
      && PrevEnd(c.l, c.ext, c.k) <= Before(c, s, pos) <= c.ext.end
      && (i == 5 ==> Before(c, s, pos) == PrevEnd(c.l, c.ext, c.k))
  }

  lemma NumRange(c: Left, x: nat)
    requires c.Valid() && x < |c.l|
    ensures 5 <= c.l[x].num <= 4 + |c.l| <= MAX_TOTAL_PART
    ensures forall y :: 0 <= y < |c.l| && y != x ==> c.l[y].num != c.l[x].num
  {
    hide OrderedBut, RoomyBut, InsideBut;
    forall y | 0 <= y < |c.l| && y != x ensures c.l[y].num != c.l[x].num {
      if y < x { assert c.l[y].num != c.l[x].num; } else { assert c.l[x].num != c.l[y].num; }
    }
  }

  lemma OnePending(c: Left, s: seq<Part>, pos: seq<nat>, i: int, x: nat)
    requires At(c, s, pos, i) && x < |c.l| && x != c.k && c.l[x].num >= i
    ensures pos[x] < |s| && PrevEnd(s, c.ext, pos[x]) == PrevEnd(c.l, c.ext, x)
  {
  }

  /** The end in front of any entry but the next one, and of the next one. */
  lemma PrevIs(c: Left, x: nat)
    requires c.Valid() && x < |c.l| && x == c.k + 1
    ensures PrevEnd(c.l, c.ext, x) == c.l[c.k].geom.end
  {
  }

  /** Entry `k` passes with a placeholder only where there is room for it. */
  lemma PassesApart(c: Left, prev: int)
    requires c.Valid() && c.Event(c.l[c.k], prev) == Passes && !Skipped(c.l[c.k], prev, c.bios)
    ensures prev + 1 < c.l[c.k].geom.start
  {
    hide LogNums, OrderedBut, RoomyBut, InsideBut, A.RoundDownTo;
  }

  lemma CrowdedStays(c: Left, s: seq<Part>, pos: seq<nat>, i: int, x: nat, s': seq<Part>, pos': seq<nat>)
    requires At(c, s, pos, i) && CrowdedAt(c, s, pos, i) && At(c, s', pos', i + 1) && x < |c.l| && c.l[x].num == i && x != c.k
    requires || Before(c, s', pos') == Before(c, s, pos)
             || (c.k < x && Before(c, s', pos') == c.l[x].geom.start - 1)
    ensures CrowdedAt(c, s', pos', i + 1)
  {
    hide LogNums, RoomyBut, InsideBut, Spread, Pending;
    OneInside(c, x);
    if c.k > 0 && c.k < x { assert c.l[c.k - 1].geom.end < c.l[x].geom.start; }
  }

  lemma CrowdedMoved(c: Left, s: seq<Part>, pos: seq<nat>, i: int)
    requires At(c, s, pos, i) && CrowdedAt(c, s, pos, i) && c.l[c.k].num == i
    ensures c.Event(c.l[c.k], Before(c, s, pos)).Stops? <==> c.Moved().Stops?
  {
    hide LogNums, OrderedBut, RoomyBut, InsideBut, TableEvent, Spread, Pending, PrevEnd;
    MovedAt(c);
    SpreadAt(s, c.l, pos, c.k);
    if i != 5 {
      MovedStops(c, Before(c, s, pos));
    } else {
      NumAtLeast5(c);
    }
  }

  lemma NumAtLeast5(c: Left)
    requires c.Valid() && c.l[c.k].num == 5
    ensures !c.Blocked()
  {
    hide OrderedBut, RoomyBut, InsideBut;
  }

  /** The loop comes to the crowded partition, unless entry `k` stops it first. */
  lemma {:induction false} CrowdedLoop(c: Left, s: seq<Part>, pos: seq<nat>, i: int)
    requires At(c, s, pos, i) && c.Crowded() && i <= c.l[c.k + 1].num && CrowdedAt(c, s, pos, i)
    ensures AbortsFrom(s, c.ext, c.len, c.bios, i) <==> !(i <= c.l[c.k].num < c.l[c.k + 1].num && c.Moved().Stops?)
    decreases MAX_TOTAL_PART + 1 - i
  {
    hide LogNums, OrderedBut, RoomyBut, InsideBut, TableEvent, Skipped, AfterTable, Spread, Pending, PrevEnd, Left.Moved;
    NumRange(c, c.k + 1);
    var x := FoundAt(s, c.l, pos, i);
    SpreadAt(s, c.l, pos, x);
    SpreadAt(s, c.l, pos, c.k);
    if x == c.k + 1 {
      OnePending(c, s, pos, i, x);
      PrevIs(c, x);
      CrowdedAborts(c);
    } else if x == c.k {
      CrowdedMoved(c, s, pos, i);
      if c.Event(c.l[c.k], Before(c, s, pos)).Passes? {
        if !Skipped(c.l[c.k], Before(c, s, pos), c.bios) { PassesApart(c, Before(c, s, pos)); }
        var pos' := Pass(c, s, pos, i, x);
        CrowdedLoop(c, AfterTable(s, c.ext, c.bios, pos[x]), pos', i + 1);
      }
    } else {
      NumRange(c, x);
      OnePending(c, s, pos, i, x);
      OthersPass(c, x);
      var pos' := Pass(c, s, pos, i, x);
      CrowdedStays(c, s, pos, i, x, AfterTable(s, c.ext, c.bios, pos[x]), pos');
      CrowdedLoop(c, AfterTable(s, c.ext, c.bios, pos[x]), pos', i + 1);
    }
  }

  // ---- the next partition is not crowded -------------------------------------------------------------------

  /** The next partition goes on or stops the loop, and gets a placeholder only when
      it starts behind entry `k`. */
  lemma NextGoesOn(c: Left)
    requires c.Valid() && !c.Crowded() && c.k + 1 < |c.l|
    ensures !c.Next().Aborts?
    ensures Skipped(c.l[c.k + 1], c.l[c.k].geom.end, c.bios) || c.l[c.k].geom.start < c.l[c.k + 1].geom.start
  {
    hide LogNums, RoomyBut, InsideBut, A.RoundDownTo;
    OneInside(c, c.k + 1);
    TableBelow(c.l[c.k + 1], c.bios);
  }

  /** While entry `k` is still to come and nothing blocks it: its old predecessor is in
      front of it, or a placeholder that leaves it room. */
  ghost predicate FreeAt(c: Left, s: seq<Part>, pos: seq<nat>, i: int)
    requires At(c, s, pos, i)
  {
    i <= c.l[c.k].num ==>
      || Before(c, s, pos) == PrevEnd(c.l, c.ext, c.k)
      || (&& c.l[c.k].num != 5 && c.ext.start <= Before(c, s, pos) && Before(c, s, pos) + 1 < c.l[c.k].geom.start
          && PrevEnd(c.l, c.ext, c.k) + 1 < c.l[c.k].geom.start)
  }

  lemma FreeMoved(c: Left, s: seq<Part>, pos: seq<nat>, i: int)
    requires At(c, s, pos, i) && FreeAt(c, s, pos, i) && c.l[c.k].num == i && !c.Blocked()
    ensures c.Event(c.l[c.k], Before(c, s, pos)) == c.Moved()
  {
    hide LogNums, OrderedBut, RoomyBut, InsideBut, A.RoundDownTo, Spread, Pending;
    SpreadAt(s, c.l, pos, c.k);
    MovedAt(c);
    if c.l[c.k].geom.start >= 1 { TableBelow(c.l[c.k], c.bios); }
  }

  lemma FreeStays(c: Left, s: seq<Part>, pos: seq<nat>, i: int, x: nat, s': seq<Part>, pos': seq<nat>)
    requires At(c, s, pos, i) && FreeAt(c, s, pos, i) && At(c, s', pos', i + 1) && x < |c.l| && c.l[x].num == i && x != c.k && x != c.k + 1
    requires !c.Blocked()
    requires || Before(c, s', pos') == Before(c, s, pos)
             || (c.k < x && c.l[x].geom.start <= c.l[c.k].geom.start && Before(c, s', pos') == c.l[x].geom.start - 1)
    ensures FreeAt(c, s', pos', i + 1)
  {
    hide LogNums, RoomyBut, InsideBut, Spread, Pending;
    OneInside(c, x);
    NumRange(c, x);
    NumRange(c, c.k);
    if c.k < x {
      assert !c.Blocks(x);
      OneInside(c, c.k + 1);
      assert c.l[c.k + 1].geom.end < c.l[x].geom.start;
      if c.k > 0 { assert c.l[c.k - 1].geom.end < c.l[c.k + 1].geom.start; }
    }
  }

  /** What the loop does at number `i`. */
  lemma EventAt(c: Left, s: seq<Part>, pos: seq<nat>, i: int) returns (x: nat)
    requires At(c, s, pos, i) && i <= 4 + |c.l|
    ensures x < |c.l| && |pos| == |c.l| && c.l[x].num == i && pos[x] < |s| && pos[c.k] < |s| && i <= MAX_TOTAL_PART
    ensures AbortsFrom(s, c.ext, c.len, c.bios, i) ==
            match c.Event(c.l[x], PrevEnd(s, c.ext, pos[x]))
            case Aborts => true
            case Stops => false
            case Passes => AbortsFrom(AfterTable(s, c.ext, c.bios, pos[x]), c.ext, c.len, c.bios, i + 1)
  {
    hide LogNums, OrderedBut, RoomyBut, InsideBut, TableEvent, Skipped, AfterTable, Spread, Pending, PrevEnd;
    x := FoundAt(s, c.l, pos, i);
    SpreadAt(s, c.l, pos, x);
    SpreadAt(s, c.l, pos, c.k);
  }

  lemma LoopEnd(c: Left, s: seq<Part>, pos: seq<nat>, i: int)
    requires At(c, s, pos, i) && i > 4 + |c.l|
    ensures !AbortsFrom(s, c.ext, c.len, c.bios, i)
  {
    hide LogNums, OrderedBut, RoomyBut, InsideBut, TableEvent, Skipped, AfterTable, Spread, Pending, PrevEnd;
    var _ := FoundAt(s, c.l, pos, i);
  }

  /** Entry `k` ends the loop, unless the next partition stops it first. */
  lemma {:induction false} FreeLoop(c: Left, s: seq<Part>, pos: seq<nat>, i: int)
    requires At(c, s, pos, i) && !c.Crowded() && !c.Blocked() && FreeAt(c, s, pos, i)
    ensures AbortsFrom(s, c.ext, c.len, c.bios, i) <==>
            && i <= c.l[c.k].num && c.Moved().Aborts?
            && !(c.k + 1 < |c.l| && i <= c.l[c.k + 1].num < c.l[c.k].num && c.Next().Stops?)
    decreases MAX_TOTAL_PART + 1 - i
  {
    hide LogNums, OrderedBut, RoomyBut, InsideBut, TableEvent, Skipped, AfterTable, Spread, Pending, PrevEnd, Left.Moved, Left.Blocked, AbortsFrom;
    NumRange(c, c.k);
    if i <= 4 + |c.l| {
      var x := EventAt(c, s, pos, i);
      var s' := AfterTable(s, c.ext, c.bios, pos[x]);
      if x == c.k + 1 {
        OnePending(c, s, pos, i, x);
        PrevIs(c, x);
        NextGoesOn(c);
        if c.Next().Passes? {
          var pos' := Pass(c, s, pos, i, x);
          FreeLoop(c, s', pos', i + 1);
        }
      } else if x == c.k {
        FreeMoved(c, s, pos, i);
        if c.Moved().Passes? {
          if !Skipped(c.l[c.k], Before(c, s, pos), c.bios) { PassesApart(c, Before(c, s, pos)); }
          var pos' := Pass(c, s, pos, i, x);
          FreeLoop(c, s', pos', i + 1);
        }
      } else {
        OnePending(c, s, pos, i, x);
        OthersPass(c, x);
        NumRange(c, x);
        var pos' := Pass(c, s, pos, i, x);
        FreeStays(c, s, pos, i, x, s', pos');
        FreeLoop(c, s', pos', i + 1);
      }
    } else {
      LoopEnd(c, s, pos, i);
    }
  }

  // ---- a placeholder right before entry `k` ---------------------------------------------------------------

  /** Everything in front of entry `k` starts before it. */
  ghost predicate AllEarlier(c: Left, s: seq<Part>, pos: seq<nat>)
    requires c.k < |c.l| && Spread(s, c.l, pos)
  {
    forall q :: 0 <= q < pos[c.k] ==> s[q].geom.start < c.l[c.k].geom.start
  }

  /** A placeholder ends right before entry `k` and starts behind all partitions that
      start earlier. */
  ghost predicate Touched(c: Left, s: seq<Part>, pos: seq<nat>, y: nat)
    requires c.k < |c.l| && Spread(s, c.l, pos)
  {
    && pos[c.k] > 0 && s[pos[c.k] - 1].geom.end == c.l[c.k].geom.start - 1
    && forall x :: 0 <= x < |c.l| && x != c.k && x != y && c.l[x].geom.start < c.l[c.k].geom.start ==>
         c.l[x].geom.start < s[pos[c.k] - 1].geom.start
  }

  ghost predicate BlockedAt(c: Left, s: seq<Part>, pos: seq<nat>, i: int, y: nat)
    requires At(c, s, pos, i) && y < |c.l|
  {
    if i <= c.l[y].num then AllEarlier(c, s, pos) else Touched(c, s, pos, y)
  }

  /** Nothing but number 5 can stand behind a blocked entry without being crowded. */
  lemma NextIs5(c: Left, y: nat)
    requires c.Valid() && !c.Crowded() && y < |c.l| && c.Blocks(y)
    ensures c.l[c.k + 1].num == 5 && c.l[y].num > 5 && c.l[c.k].num > 5
    ensures Skipped(c.l[c.k + 1], c.l[c.k].geom.end, c.bios)
    ensures c.l[c.k].geom.start > PrevEnd(c.l, c.ext, c.k) + 1
  {
    hide LogNums, RoomyBut, InsideBut, A.RoundDownTo;
    OneInside(c, c.k + 1);
    assert c.l[c.k + 1].geom.end < c.l[y].geom.start;
    if c.k > 0 { assert c.l[c.k - 1].geom.end < c.l[c.k + 1].geom.start; }
    NumRange(c, c.k + 1);
    NumRange(c, y);
  }

  lemma EarlierStays(c: Left, s: seq<Part>, pos: seq<nat>, x: nat, p: Part)
    requires c.k < |c.l| && Spread(s, c.l, pos) && AllEarlier(c, s, pos) && x < |c.l| && x != c.k
    requires p.num == UNNUMBERED && p.geom.start <= p.geom.end == c.l[x].geom.start - 1
    ensures var t := InsertPoint(s, p.geom.end);
            Spread(Insert(s, p), c.l, Shift(pos, t)) && AllEarlier(c, Insert(s, p), Shift(pos, t))
  {
    hide Insert, Shift, Spread;
    var t := InsertPoint(s, p.geom.end);
    SpreadAt(s, c.l, pos, c.k);
    SpreadAt(s, c.l, pos, x);
    SpreadInsert(s, c.l, pos, p);
    ShiftAt(pos, t, c.k);
    InsertEntries(s, p);
  }

  /** The placeholder of the partition that starts on the same sector. */
  lemma Touches(c: Left, s: seq<Part>, pos: seq<nat>, y: nat, p: Part)
    requires c.Valid() && Spread(s, c.l, pos) && AllEarlier(c, s, pos) && y < |c.l| && c.Blocks(y)
    requires p.num == UNNUMBERED && c.l[y - 1].geom.end < p.geom.start && p.geom.end == c.l[y].geom.start - 1
    ensures var t := InsertPoint(s, p.geom.end);
            Spread(Insert(s, p), c.l, Shift(pos, t)) && Touched(c, Insert(s, p), Shift(pos, t), y)
  {
    hide Insert, Shift, LogNums, RoomyBut, InsideBut, Spread, OrderedBut;
    var t := InsertPoint(s, p.geom.end);
    SpreadAt(s, c.l, pos, c.k);
    InsertPointIs(s, p.geom.end, pos[c.k]);
    SpreadInsert(s, c.l, pos, p);
    ShiftAt(pos, t, c.k);
    InsertEntries(s, p);
    forall x | 0 <= x < |c.l| && x != c.k && x != y && c.l[x].geom.start < c.l[c.k].geom.start ensures c.l[x].geom.start < p.geom.start {
      EarlierEnds(c, x, y);
    }
  }

  lemma EarlierEnds(c: Left, x: nat, y: nat)
    requires c.Valid() && y < |c.l| && c.Blocks(y) && x < |c.l| && x != c.k && x != y
    ensures c.l[x].geom.start != c.l[c.k].geom.start
    ensures c.l[x].geom.start < c.l[c.k].geom.start ==> c.l[x].geom.start <= c.l[y - 1].geom.end
  {
    hide LogNums, RoomyBut, InsideBut;
    if x < y {
      assert c.l[x].geom.end < c.l[y].geom.start;
      if x < y - 1 { assert c.l[x].geom.end < c.l[y - 1].geom.start; }
    } else {
      assert c.l[y].geom.end < c.l[x].geom.start;
    }
  }

  lemma TouchedStays(c: Left, s: seq<Part>, pos: seq<nat>, x: nat, y: nat, p: Part)
    requires c.Valid() && Spread(s, c.l, pos) && y < |c.l| && c.Blocks(y) && Touched(c, s, pos, y) && x < |c.l| && x != c.k && x != y
    requires p.num == UNNUMBERED && p.geom.end == c.l[x].geom.start - 1
    ensures var t := InsertPoint(s, p.geom.end);
            Spread(Insert(s, p), c.l, Shift(pos, t)) && Touched(c, Insert(s, p), Shift(pos, t), y)
  {
    hide Insert, Shift, LogNums, RoomyBut, InsideBut, Spread, OrderedBut;
    var t := InsertPoint(s, p.geom.end);
    SpreadAt(s, c.l, pos, c.k);
    EarlierEnds(c, x, y);
    assert t != pos[c.k];
    SpreadInsert(s, c.l, pos, p);
    ShiftAt(pos, t, c.k);
    InsertEntries(s, p);
  }

  lemma BlockedStays(c: Left, s: seq<Part>, pos: seq<nat>, i: int, x: nat, y: nat, s': seq<Part>, pos': seq<nat>)
    requires At(c, s, pos, i) && At(c, s', pos', i + 1) && x < |c.l| && c.l[x].num == i && x != c.k && x != c.k + 1
    requires !c.Crowded() && y < |c.l| && c.Blocks(y) && BlockedAt(c, s, pos, i, y)
    requires s' == AfterTable(s, c.ext, c.bios, pos[x])
    requires pos' == if Skipped(c.l[x], PrevEnd(s, c.ext, pos[x]), c.bios) then pos else Shift(pos, InsertPoint(s, c.l[x].geom.start - 1))
    ensures BlockedAt(c, s', pos', i + 1, y)
  {
    hide Insert, Shift, LogNums, OrderedBut, RoomyBut, InsideBut, AllEarlier, Touched, TableStart, Pending, Spread;
    NextIs5(c, y);
    NumRange(c, c.k + 1);
    NumRange(c, y);
    SpreadAt(s, c.l, pos, x);
    var p := Placeholder(LogicalMeta, TableStart(c.l[x], PrevEnd(s, c.ext, pos[x]), c.bios), c.l[x].geom.start - 1);
    assert s' == Insert(s, p);
    TableOrder(c, s, pos, i, x);
    if x == y {
      Touches(c, s, pos, y, p);
    } else if i <= c.l[y].num {
      EarlierStays(c, s, pos, x, p);
    } else {
      TouchedStays(c, s, pos, x, y, p);
    }
  }

  /** A placeholder begins behind the partition before it and ends before its own. */
  lemma TableOrder(c: Left, s: seq<Part>, pos: seq<nat>, i: int, x: nat)
    requires At(c, s, pos, i) && x < |c.l| && c.l[x].num == i && i != 5 && x != c.k && x != c.k + 1
    ensures pos[x] < |s|
    ensures var start := TableStart(c.l[x], PrevEnd(s, c.ext, pos[x]), c.bios);
            PrevEnd(c.l, c.ext, x) < start <= c.l[x].geom.start - 1
  {
    hide LogNums, OrderedBut, RoomyBut, InsideBut, A.RoundDownTo, Spread, Pending;
    OnePending(c, s, pos, i, x);
    OneInside(c, x);
    OneRoomy(c, x);
    TableBelow(c.l[x], c.bios);
  }

  /** Entry `k` has no room for its table. */
  lemma {:induction false} BlockedLoop(c: Left, s: seq<Part>, pos: seq<nat>, i: int, y: nat)
    requires At(c, s, pos, i) && !c.Crowded() && y < |c.l| && c.Blocks(y) && i <= c.l[c.k].num && BlockedAt(c, s, pos, i, y)
    ensures AbortsFrom(s, c.ext, c.len, c.bios, i)
    decreases MAX_TOTAL_PART + 1 - i
  {
    hide LogNums, OrderedBut, RoomyBut, InsideBut, TableEvent, Skipped, AfterTable, Spread, Pending, PrevEnd, BlockedAt;
    NumRange(c, c.k);
    NextIs5(c, y);
    var x := FoundAt(s, c.l, pos, i);
    SpreadAt(s, c.l, pos, x);
    SpreadAt(s, c.l, pos, c.k);
    if x == c.k {
      BlockedMoved(c, s, pos, i, y);
    } else {
      NumRange(c, x);
      OnePending(c, s, pos, i, x);
      var s' := AfterTable(s, c.ext, c.bios, pos[x]);
      var pos' := Pass(c, s, pos, i, x);
      if x == c.k + 1 {
        PrevIs(c, x);
        SkippedPasses(c, s, pos, x);
        BlockedSame(c, s, pos, i, y);
      } else {
        OthersPass(c, x);
        BlockedStays(c, s, pos, i, x, y, s', pos');
      }
      BlockedLoop(c, s', pos', i + 1, y);
    }
  }

  lemma SkippedPasses(c: Left, s: seq<Part>, pos: seq<nat>, x: nat)
    requires c.Valid() && Spread(s, c.l, pos) && x < |c.l| && Skipped(c.l[x], PrevEnd(s, c.ext, pos[x]), c.bios)
    ensures c.Event(c.l[x], PrevEnd(s, c.ext, pos[x])) == Passes && AfterTable(s, c.ext, c.bios, pos[x]) == s
  {
    hide LogNums, OrderedBut, RoomyBut, InsideBut, TableStart, Insert;
  }

  lemma BlockedSame(c: Left, s: seq<Part>, pos: seq<nat>, i: int, y: nat)
    requires At(c, s, pos, i) && At(c, s, pos, i + 1) && y < |c.l| && i < c.l[y].num && BlockedAt(c, s, pos, i, y)
    ensures BlockedAt(c, s, pos, i + 1, y)
  {
  }

  lemma BlockedMoved(c: Left, s: seq<Part>, pos: seq<nat>, i: int, y: nat)
    requires At(c, s, pos, i) && y < |c.l| && c.Blocks(y) && i == c.l[c.k].num && i > 5 && BlockedAt(c, s, pos, i, y)
    ensures pos[c.k] < |s| && c.Event(c.l[c.k], Before(c, s, pos)) == Aborts
  {
    hide LogNums, OrderedBut, RoomyBut, InsideBut, A.RoundDownTo, Pending;
  }

  // ---- all of it ------------------------------------------------------------------------------------------

  lemma Initially(c: Left) returns (pos: seq<nat>)
    requires c.Valid()
    ensures At(c, c.l, pos, 5) && |pos| == |c.l| && forall x :: 0 <= x < |pos| ==> pos[x] == x
  {
    hide LogNums, OrderedBut, RoomyBut, InsideBut;
    pos := seq(|c.l|, x requires 0 <= x < |c.l| => x);
    forall q | 0 <= q < |c.l| && c.l[q].num != UNNUMBERED ensures q in pos { assert pos[q] == q; }
  }

  /** With one logical partition of a sound table left anywhere, the assertion fails
      exactly when the outcome at that partition and the next one says so. */
  lemma LeftAborts(c: Left)
    requires c.Valid()
    ensures AbortsFrom(c.l, c.ext, c.len, c.bios, 5) <==> c.Outcome().Aborts?
  {
    hide LogNums, OrderedBut, RoomyBut, InsideBut, TableEvent, Spread, Pending, PrevEnd, AbortsFrom, Left.Blocked;
    var pos := Initially(c);
    NumRange(c, c.k);
    if c.k + 1 < |c.l| { NumRange(c, c.k + 1); }
    MovedAt(c);
    if c.Crowded() {
      CrowdedLoop(c, c.l, pos, 5);
      CrowdedAborts(c);
    } else if c.Blocked() {
      BlockedOutcome(c);
    } else {
      FreeLoop(c, c.l, pos, 5);
      if c.k + 1 < |c.l| { NextGoesOn(c); }
    }
  }

  lemma BlockedOutcome(c: Left)
    requires c.Valid() && !c.Crowded() && c.Blocked()
    ensures AbortsFrom(c.l, c.ext, c.len, c.bios, 5) && c.Outcome().Aborts?
  {
    hide LogNums, OrderedBut, RoomyBut, InsideBut, Spread, Pending, AbortsFrom, A.RoundDownTo;
    var y :| 0 <= y < |c.l| && c.Blocks(y);
    NextIs5(c, y);
    var pos := Initially(c);
    assert AllEarlier(c, c.l, pos) by { FrontEarlier(c, pos); }
    BlockedLoop(c, c.l, pos, 5, y);
  }

  lemma FrontEarlier(c: Left, pos: seq<nat>)
    requires At(c, c.l, pos, 5) && c.l[c.k].geom.start > PrevEnd(c.l, c.ext, c.k) + 1 && forall x :: 0 <= x < |pos| ==> pos[x] == x
    ensures AllEarlier(c, c.l, pos)
  {
    hide LogNums, OrderedBut, RoomyBut, InsideBut, Pending;
    forall q | 0 <= q < pos[c.k] ensures c.l[q].geom.start < c.l[c.k].geom.start { FrontEnds(c, q); }
  }

  // ---- the extended partition left at a refused place --------------------------------------------------------

  /** The first logical partition has no room for its table, and all smaller numbers
      pass. */
  ghost predicate FirstAborts(l: seq<Part>, ext: Geom, len: int, bios: Bios, i: int)
    requires l != [] && bios.Valid()
  {
    && i <= l[0].num && TableEvent(l[0], ext.start, ext, len, bios).Aborts?
    && forall x :: 0 <= x < |l| && i <= l[x].num < l[0].num ==> TableEvent(l[x], PrevEnd(l, ext, x), ext, len, bios).Passes?
  }

  ghost predicate Tidy(l: seq<Part>) {
    && l != [] && |l| <= MAX_TOTAL_PART - 4 && LogNums(l, |l|) && OrderedBut(l, -1)
    && (forall x :: 0 <= x < |l| ==> l[x].kind == Logical && l[x].geom.start >= 1)
    && (forall x :: 0 < x < |l| ==> l[x].geom.start >= l[x - 1].geom.end + 1 + Not5(l[x].num))
  }

  lemma LaterNeverAbort(l: seq<Part>, ext: Geom, len: int, bios: Bios, x: nat)
    requires Tidy(l) && bios.Valid() && 0 < x < |l|
    ensures !TableEvent(l[x], PrevEnd(l, ext, x), ext, len, bios).Aborts?
  {
    hide LogNums, OrderedBut, A.RoundDownTo;
    TableBelow(l[x], bios);
  }

  lemma TidyNums(l: seq<Part>, x: nat)
    requires Tidy(l) && x < |l|
    ensures 5 <= l[x].num <= 4 + |l| <= MAX_TOTAL_PART
    ensures forall y :: 0 <= y < |l| && y != x ==> l[y].num != l[x].num
  {
    hide OrderedBut;
    forall y | 0 <= y < |l| && y != x ensures l[y].num != l[x].num {
      if y < x { assert l[y].num != l[x].num; } else { assert l[x].num != l[y].num; }
    }
  }

  lemma {:induction false} TidyLoop(l: seq<Part>, ext: Geom, len: int, bios: Bios, s: seq<Part>, pos: seq<nat>, i: int)
    requires Tidy(l) && bios.Valid() && 5 <= i && Spread(s, l, pos) && Pending(s, l, pos, ext, -1, i)
    ensures AbortsFrom(s, ext, len, bios, i) <==> FirstAborts(l, ext, len, bios, i)
    decreases MAX_TOTAL_PART + 1 - i
  {
    hide LogNums, OrderedBut, TableEvent, Spread, Pending, PrevEnd, AfterTable;
    TidyNums(l, 0);
    var x := TidyAt(s, l, pos, i);
    if i <= 4 + |l| {
      TidyNums(l, x);
      var e := TableEvent(l[x], PrevEnd(l, ext, x), ext, len, bios);
      PendingAt(s, l, pos, ext, i, x);
      if x > 0 { LaterNeverAbort(l, ext, len, bios, x); } else { FirstPrev(l, ext); }
      if e.Passes? {
        var pos' := TidyPass(l, ext, bios, s, pos, i, x);
        TidyLoop(l, ext, len, bios, AfterTable(s, ext, bios, pos[x]), pos', i + 1);
        FirstSame(l, ext, len, bios, i, x);
      }
    }
  }

  lemma FirstPrev(l: seq<Part>, ext: Geom)
    requires l != []
    ensures PrevEnd(l, ext, 0) == ext.start
  {
  }

  lemma FirstSame(l: seq<Part>, ext: Geom, len: int, bios: Bios, i: int, x: nat)
    requires Tidy(l) && bios.Valid() && x < |l| && l[x].num == i && TableEvent(l[x], PrevEnd(l, ext, x), ext, len, bios).Passes?
    ensures FirstAborts(l, ext, len, bios, i) <==> FirstAborts(l, ext, len, bios, i + 1)
  {
    hide LogNums, OrderedBut, TableEvent;
    TidyNums(l, x);
  }

  lemma TidyAt(s: seq<Part>, l: seq<Part>, pos: seq<nat>, i: int) returns (x: int)
    requires Tidy(l) && Spread(s, l, pos) && i >= 5
    ensures |pos| == |l|
    ensures if i <= 4 + |l| then 0 <= x < |l| && l[x].num == i && NumIndex(s, i) == pos[x] && pos[x] < |s| && s[pos[x]] == l[x]
            else NumIndex(s, i) < 0
  {
    hide LogNums, OrderedBut;
    x := FoundAt(s, l, pos, i);
  }

  lemma PendingAt(s: seq<Part>, l: seq<Part>, pos: seq<nat>, ext: Geom, i: int, x: nat)
    requires Spread(s, l, pos) && Pending(s, l, pos, ext, -1, i) && x < |l| && l[x].num >= i
    ensures PrevEnd(s, ext, pos[x]) == PrevEnd(l, ext, x)
  {
  }

  lemma TidyOrdered(l: seq<Part>)
    requires Tidy(l)
    ensures OrderedBut(l, -1)
  {
  }

  lemma LessPending(s: seq<Part>, l: seq<Part>, pos: seq<nat>, ext: Geom, i: int)
    requires Spread(s, l, pos) && Pending(s, l, pos, ext, -1, i)
    ensures Pending(s, l, pos, ext, -1, i + 1)
  {
    hide Spread;
  }

  lemma TidyPass(l: seq<Part>, ext: Geom, bios: Bios, s: seq<Part>, pos: seq<nat>, i: int, x: nat) returns (pos': seq<nat>)
    requires Tidy(l) && bios.Valid() && x < |l| && l[x].num == i && Spread(s, l, pos) && Pending(s, l, pos, ext, -1, i)
    ensures Spread(AfterTable(s, ext, bios, pos[x]), l, pos')
    ensures Pending(AfterTable(s, ext, bios, pos[x]), l, pos', ext, -1, i + 1)
  {
    hide Insert, PrevEnd, OrderedBut, Shift, TableStart, Tidy, Spread, Pending;
    SpreadAt(s, l, pos, x);
    var prev := PrevEnd(s, ext, pos[x]);
    if Skipped(l[x], prev, bios) {
      pos' := pos;
      LessPending(s, l, pos, ext, i);
    } else {
      var p := Placeholder(LogicalMeta, TableStart(l[x], prev, bios), l[x].geom.start - 1);
      pos' := Shift(pos, InsertPoint(s, p.geom.end));
      TidyOrdered(l);
      StepPending(s, l, pos, ext, -1, x, p);
    }
  }

  lemma TidyAborts(l: seq<Part>, ext: Geom, len: int, bios: Bios)
    requires Tidy(l) && bios.Valid()
    ensures AbortsFrom(l, ext, len, bios, 5) <==> FirstAborts(l, ext, len, bios, 5)
  {
    hide LogNums, OrderedBut, AbortsFrom, FirstAborts;
    var pos := seq(|l|, x requires 0 <= x < |l| => x);
    forall q | 0 <= q < |l| && l[q].num != UNNUMBERED ensures q in pos { assert pos[q] == q; }
    TidyLoop(l, ext, len, bios, l, pos, 5);
  }

  // ---- leaving update mode ------------------------------------------------------------------------------------

  /** Placeholders change neither the logical list nor the extended partition. */
  lemma StartEndKeeps(d: Disk, env: Env, cylinderAlign: bool)
    requires AllActive(d.prims) && env.Valid() && (!HasExt(d) ==> d.logs == []) && AllActive(d.logs)
    ensures var r := AddStartEnd(d, env, cylinderAlign);
            !r.AssertFails? && r.disk.logs == d.logs && r.disk.len == d.len
            && HasExt(r.disk) == HasExt(d) && (HasExt(d) ==> ExtPart(r.disk) == ExtPart(d))
  {
    hide Actives, Insert, ExtIndex;
    ActivesOfActives(d.prims);
    ActivesOfActives(d.logs);
    assert Keeps(d, d);
    hide NoFreeIn;
    AddStartEndKeeps(d, env, cylinderAlign);
    var r := AddStartEnd(d, env, cylinderAlign);
    SameExt(r.disk.prims, d.prims);
  }

  /** When leaving update mode fails its assertion. */
  lemma AllocAborts(d: Disk, env: Env)
    requires AllActive(d.prims) && AllActive(d.logs) && env.Valid() && (!HasExt(d) ==> d.logs == []) && d.mode == 1
    ensures Pop(d, env).Crash? <==>
            && env.scheme.Msdos? && HasExt(d) && AddStartEnd(d, env, env.scheme.cylinderAlign).Allocated?
            && AbortsFrom(d.logs, ExtPart(d).geom, d.len, env.probe(ExtPart(d)), 5)
  {
    hide AddStartEnd, AddLogMetas, AddMetaThen, ExtTableEnd, AllocFree, AbortsFrom, ExtIndex;
    if env.scheme.Msdos? {
      StartEndKeeps(d, env, env.scheme.cylinderAlign);
      var r := AddStartEnd(d, env, env.scheme.cylinderAlign);
      if HasExt(d) { LoopAborts(r.disk, env, 5); }
    }
  }

  /** A partition of a sound table left at the region `g`: when leaving update mode
      fails its assertion. */
  ghost predicate AbortsAt(core: Disk, ref: Ref, g: Geom, env: Env)
    requires Handle(core, ref) && env.Valid()
  {
    var moved := PartAt(core, ref).(geom := g);
    && env.scheme.Msdos? && HasExt(core)
    && match ref
       case Log(k) => Left(core.logs[k := moved], ExtPart(core).geom, core.len, env.probe(ExtPart(core)), k).Outcome().Aborts?
       case Prim(_) =>
         && moved.kind == Extended && core.logs != []
         && AddStartEnd(SetPart(core, ref, moved), env, env.scheme.cylinderAlign).Allocated?
         && FirstAborts(core.logs, g, core.len, env.probe(moved), 5)
  }

  lemma LeftValid(core: Disk, k: nat, g: Geom, env: Env)
    requires Sound(core, env) && env.Valid() && env.scheme.Msdos? && HasExt(core) && k < |core.logs| && g.Valid()
    ensures Left(core.logs[k := core.logs[k].(geom := g)], ExtPart(core).geom, core.len, env.probe(ExtPart(core)), k).Valid()
  {
    hide PrimNums, OneExtended, InLimits, Actives;
    var l, ext := core.logs, ExtPart(core).geom;
    SoundUsable(core, env);
    AllLogical(core);
    ExtOn(core, env);
    LeftNums(l, k, g);
    LeftRoomy(core, k, g, env);
  }

  lemma ExtOn(core: Disk, env: Env)
    requires Sound(core, env) && HasExt(core)
    ensures ExtPart(core).geom.Valid() && ExtPart(core).geom.end < core.len && ExtPart(core).geom.start >= 1
  {
  }

  lemma LeftNums(l: seq<Part>, k: nat, g: Geom)
    requires LogNums(l, |l|) && k < |l|
    ensures LogNums(l[k := l[k].(geom := g)], |l|)
  {
    var r := l[k := l[k].(geom := g)];
    forall m | 5 <= m <= 4 + |l| ensures NumIn(r, m) {
      assert NumIn(l, m);
      var j :| 0 <= j < |l| && HasNum(l[j], m);
      assert HasNum(r[j], m);
    }
  }

  lemma LeftRoomy(core: Disk, k: nat, g: Geom, env: Env)
    requires Sound(core, env) && env.scheme.Msdos? && HasExt(core) && k < |core.logs| && g.Valid()
    ensures var l, ext := core.logs[k := core.logs[k].(geom := g)], ExtPart(core).geom;
            OrderedBut(l, k) && InsideBut(l, ext, k) && RoomyBut(l, ext, k)
  {
    hide PrimNums, LogNums, OneExtended, InLimits, Actives;
    var s, ext := core.logs, ExtPart(core).geom;
    var l := s[k := s[k].(geom := g)];
    LaidLogs(core);
    GapsOf(core);
    GapsSpaced(s, ext);
    forall x | 0 <= x < |l| && x != k && x != k + 1 ensures l[x].geom.start >= PrevEnd(l, ext, x) + 1 + Not5(l[x].num) {
      assert GapBefore(s, ext, x);
    }
  }

  lemma SoundTidy(core: Disk, env: Env)
    requires Sound(core, env) && env.scheme.Msdos? && HasExt(core) && core.logs != []
    ensures Tidy(core.logs)
  {
    hide PrimNums, OneExtended, InLimits, Actives;
    SoundUsable(core, env);
    AllLogical(core);
    ExtOn(core, env);
    LaidLogs(core);
    var s, ext := core.logs, ExtPart(core).geom;
    GapsOf(core);
    GapsSpaced(s, ext);
    forall x | 0 < x < |s| ensures s[x].geom.start >= s[x - 1].geom.end + 1 + Not5(s[x].num) { assert GapBefore(s, ext, x); }
  }

  /** The first logical partition of a sound table has room for its table. */
  lemma FirstFine(core: Disk, env: Env)
    requires Sound(core, env) && env.Valid() && env.scheme.Msdos? && HasExt(core) && core.logs != []
    ensures !FirstAborts(core.logs, ExtPart(core).geom, core.len, env.probe(ExtPart(core)), 5)
  {
    hide PrimNums, LogNums, OneExtended, InLimits, Actives, A.RoundDownTo;
    ExtOn(core, env);
    assert GapBefore(core.logs, ExtPart(core).geom, 0);
    TableBelow(core.logs[0], env.probe(ExtPart(core)));
  }

  lemma MovedActive(core: Disk, ref: Ref, moved: Part, env: Env)
    requires Sound(core, env) && RefOk(core, ref) && moved.kind == PartAt(core, ref).kind
    ensures var d := SetPart(core, ref, moved);
            AllActive(d.prims) && AllActive(d.logs) && (!HasExt(d) ==> d.logs == [])
  {
    hide PrimNums, LogNums, InLimits, Actives;
    SetPartExt(core, ref, moved);
  }

  lemma LogAborts(core: Disk, k: nat, g: Geom, env: Env)
    requires Sound(core, env) && env.Valid() && env.scheme.Msdos? && HasExt(core) && Handle(core, Log(k)) && g.Valid()
    ensures var moved := core.logs[k].(geom := g);
            var ext, l := ExtPart(core), core.logs[k := moved];
            && AddStartEnd(SetPart(core, Log(k), moved), env, env.scheme.cylinderAlign).Allocated?
            && (AbortsFrom(l, ext.geom, core.len, env.probe(ext), 5)
                <==> Left(l, ext.geom, core.len, env.probe(ext), k).Outcome().Aborts?)
  {
    hide Sound, AbortsFrom, AddStartEnd, Left.Valid, Left.Outcome;
    LeftValid(core, k, g, env);
    LeftAborts(Left(core.logs[k := core.logs[k].(geom := g)], ExtPart(core).geom, core.len, env.probe(ExtPart(core)), k));
    StartEndAllocates(core, env);
    StartEndSame(core, SetPart(core, Log(k), core.logs[k].(geom := g)), env, env.scheme.cylinderAlign);
  }

  lemma StartEndAllocates(core: Disk, env: Env)
    requires Sound(core, env) && env.Valid() && env.scheme.Msdos? && HasExt(core)
    ensures AddStartEnd(core, env, env.scheme.cylinderAlign).Allocated?
  {
    hide AddStartEnd;
    AddStartEndDresses(core, env, env.scheme.cylinderAlign);
  }

  /** The placeholders at both ends do not depend on the logical partitions. */
  lemma StartEndSame(d: Disk, d1: Disk, env: Env, cylinderAlign: bool)
    requires d.prims == d1.prims && d.len == d1.len && env.Valid()
    ensures AddStartEnd(d, env, cylinderAlign).Allocated? <==> AddStartEnd(d1, env, cylinderAlign).Allocated?
  {
    hide Insert, A.RoundDownTo, FirstStart, LastEnd, ExtIndex;
  }

  lemma PrimAborts(core: Disk, e: nat, g: Geom, env: Env)
    requires Sound(core, env) && env.Valid() && env.scheme.Msdos? && HasExt(core) && e < |core.prims| && g.Valid()
    ensures var moved := core.prims[e].(geom := g);
            var d := SetPart(core, Prim(e), moved);
            && HasExt(d)
            && (AbortsFrom(core.logs, ExtPart(d).geom, core.len, env.probe(ExtPart(d)), 5)
                <==> moved.kind == Extended && core.logs != [] && FirstAborts(core.logs, g, core.len, env.probe(moved), 5))
  {
    hide Sound, AbortsFrom, FirstAborts;
    var moved := core.prims[e].(geom := g);
    SetPartExt(core, Prim(e), moved);
    OneExt(core, e, env);
    var d := SetPart(core, Prim(e), moved);
    if core.logs == [] {
      NoLogs(ExtPart(d).geom, core.len, env.probe(ExtPart(d)));
    } else {
      SoundTidy(core, env);
      TidyAborts(core.logs, ExtPart(d).geom, core.len, env.probe(ExtPart(d)));
      FirstFine(core, env);
    }
  }

  lemma OneExt(core: Disk, e: nat, env: Env)
    requires Sound(core, env) && e < |core.prims|
    ensures core.prims[e].kind == Extended ==> HasExt(core) && ExtIndex(core.prims) == e
  {
    if core.prims[e].kind == Extended { ExtIs(core.prims, e); }
  }

  lemma NoLogs(ext: Geom, len: int, bios: Bios)
    requires bios.Valid()
    ensures !AbortsFrom([], ext, len, bios, 5)
  {
  }

  lemma PopAborts(core: Disk, ref: Ref, g: Geom, env: Env)
    requires Sound(core, env) && env.Valid() && core.mode == 1 && Handle(core, ref) && g.Valid()
    ensures Pop(SetPart(core, ref, PartAt(core, ref).(geom := g)), env).Crash? <==> AbortsAt(core, ref, g, env)
  {
    hide Sound, Pop, AbortsFrom, FirstAborts, AddStartEnd, Left.Outcome;
    var moved := PartAt(core, ref).(geom := g);
    var d := SetPart(core, ref, moved);
    SetPartExt(core, ref, moved);
    SoundUsable(core, env);
    MovedActive(core, ref, moved, env);
    AllocAborts(d, env);
    if env.scheme.Msdos? && HasExt(core) {
      if ref.Log? { LogAborts(core, ref.k, g, env); } else { PrimAborts(core, ref.k, g, env); }
    }
  }
}
