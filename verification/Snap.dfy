/** Snapping a new partition to nearby partition boundaries (parted/parted.c:290-457).
    Every PED_ASSERT of the original is an `assert` here or, where an old region can
    make it fail, a `None`. */
module Snap {
  import opened CInt
  import opened Geometry
  import opened PartList
  import opened Disk
  import opened DiskLayout
  import opened Tiling
  import opened EbrWrite
  import opened Runs

  /** SECT_START or SECT_END: which end of the new region a sector is. */
  datatype Side = First | Last

  function Offset(side: Side): int {
    if side == First then 0 else -1
  }

  datatype Move = Still | Up | Down

  /** The boundary of a tile above or below the sectors in it: where a region starts
      after or at it, or ends at or before it. */
  function Boundary(side: Side, tile: Geom, move: Move): int
    requires move != Still
  {
    if move == Up then tile.end + 1 + Offset(side) else tile.start + Offset(side)
  }

  function Target(side: Side, tile: Geom, move: Move, s: int): int {
    if move == Still then s else Boundary(side, tile, move)
  }

  /** The moves that are allowed and stay in range. */
  predicate Usable(side: Side, range: Geom, tile: Geom, up: bool, down: bool, move: Move) {
    match move
    case Still => false
    case Up => up && range.Contains(Boundary(side, tile, Up))
    case Down => down && range.Contains(Boundary(side, tile, Down))
  }

  /** `m` is at least as good as `o`: nearer, or as near and on the sector's own side. */
  predicate AsGood(side: Side, tile: Geom, s: int, m: Move, o: Move) {
    var x, y := Abs(Target(side, tile, m, s) - s), Abs(Target(side, tile, o, s) - s);
    x < y || (x == y && (m == o || m == if side == First then Down else Up))
  }

  /** The preferred move: to the nearest usable boundary, and none if there is none. */
  predicate Preferred(side: Side, range: Geom, tile: Geom, up: bool, down: bool, s: int, m: Move) {
    if Usable(side, range, tile, up, down, Up) || Usable(side, range, tile, up, down, Down)
    then
      && Usable(side, range, tile, up, down, m)
      && (Usable(side, range, tile, up, down, Up) ==> AsGood(side, tile, s, m, Up))
      && (Usable(side, range, tile, up, down, Down) ==> AsGood(side, tile, s, m, Down))
    else m == Still
  }

  /** There is only one preferred move. */
  lemma PreferredUnique(side: Side, range: Geom, tile: Geom, up: bool, down: bool, s: int, m: Move, m': Move)
    requires tile.Contains(s) && Preferred(side, range, tile, up, down, s, m) && Preferred(side, range, tile, up, down, s, m')
    ensures m == m'
  {
  }

  /** A move that was ruled out before stays ruled out. */
  lemma PreferAgain(side: Side, range: Geom, tile: Geom, up: bool, down: bool, s: int, m: Move)
    requires Preferred(side, range, tile, up && range.Contains(Boundary(side, tile, Up)), down && range.Contains(Boundary(side, tile, Down)), s, m)
    ensures Preferred(side, range, tile, up, down, s, m)
  {
  }

  /** `prefer_snap`; the two flags are `*allow`. */
  method PreferSnap(s: int, side: Side, range: Geom, up0: bool, down0: bool, tile: Geom)
    returns (move: Move, dist: int, up: bool, down: bool)
    requires up0 || down0 ==> tile.Contains(s)
    ensures Preferred(side, range, tile, up0, down0, s, move)
    ensures dist == Abs(Target(side, tile, move, s) - s)
    ensures up == Usable(side, range, tile, up0, down0, Up) && down == Usable(side, range, tile, up0, down0, Down)
  {
    up, down := up0, down0;
    if !up && !down { return Still, 0, up, down; }
    var upDist, downDist := -1, -1;
    if up {
      var target := tile.end + 1 + Offset(side);
      if range.Contains(target) { upDist := target - s; } else { up := false; }
    }
    if down {
      var target := tile.start + Offset(side);
      if range.Contains(target) { downDist := s - target; } else { down := false; }
    }
    move := Still;
    if up && down {
      if downDist < upDist || (downDist == upDist && side == First) { move := Down; }
      else {
        assert upDist < downDist || (downDist == upDist && side == Last);
        move := Up;
      }
    } else if up { move := Up; }
    else if down { move := Down; }
    dist := if move == Down then downDist else if move == Up then upDist else 0;
  }

  /** `snap` */
  method SnapTo(sector: int, target: int, range: Geom) returns (r: int, snapped: bool)
    requires range.Contains(sector)
    ensures snapped == range.Contains(target) && r == (if snapped then target else sector)
    ensures range.Contains(r)
  {
    if range.Contains(target) { return target, true; }
    return sector, false;
  }

  // ---- both ends ----------------------------------------------------------------------------------

  /** The preferred moves of both ends cross between two adjacent tiles. */
  predicate Crosses(from: Geom, to: Geom, m: Move, n: Move) {
    from.end + 1 == to.start && m == Up && n == Down
  }

  /** What to snap: the ends, which of them are fixed, the tiles they were in (`same`
      if it is one tile) and the ranges they may lie in. */
  datatype Job = Job(start: int, end: int, fixStart: bool, fixEnd: bool, from: Geom, to: Geom, same: bool,
                     startRange: Geom, endRange: Geom) {
    predicate PrefersStart(inwards: bool, m: Move) {
      Preferred(First, startRange, from, !fixStart && !same && inwards, !fixStart, start, m)
    }

    predicate PrefersEnd(inwards: bool, n: Move) {
      Preferred(Last, endRange, to, !fixEnd, !fixEnd && !same && inwards, end, n)
    }

    function StartTarget(m: Move): int {
      Target(First, from, m, start)
    }

    function EndTarget(n: Move): int {
      Target(Last, to, n, end)
    }

    /** The moves `m` and `n` are preferred; `m'` and `n'` are made, which are the same
        unless the ends would cross, when the farther one gives way. */
    predicate Moves(m: Move, n: Move, m': Move, n': Move) {
      && PrefersStart(true, m) && PrefersEnd(true, n)
      && (if !Crosses(from, to, m, n) then m' == m && n' == n
          else if Abs(EndTarget(n) - end) < Abs(StartTarget(m) - start) then PrefersStart(false, m') && n' == n
          else m' == m && PrefersEnd(false, n'))
    }

    /** Both ends make their preferred moves, except that neither leaves a common tile
        inwards and that of two ends that would cross the farther one gives way. */
    ghost predicate Snapped(r: Geom) {
      exists m, n, m', n' :: Moves(m, n, m', n') && r == Geom(StartTarget(m'), EndTarget(n'))
    }

    /** Where exactly one end is fixed to an old region, the preferred move of the other
        does not pass it. */
    predicate EndsMeet() {
      if fixStart == fixEnd then true
      else if fixStart then forall n | n in {Still, Up, Down} :: PrefersEnd(true, n) ==> start <= EndTarget(n)
      else forall m | m in {Still, Up, Down} :: PrefersStart(true, m) ==> StartTarget(m) <= end
    }

    predicate InRange() {
      startRange.Contains(start) && endRange.Contains(end)
    }

    /** A free end lies in its tile, and the tiles are one or lie one after the other. */
    predicate InTiles() {
      && (!fixStart ==> from.Contains(start)) && (!fixEnd ==> to.Contains(end))
      && (if same then from == to else from.end < to.start)
    }
  }

  /** A chosen start is in range, and where its move says. */
  lemma StartPlace(j: Job, inwards: bool, m: Move)
    requires j.PrefersStart(inwards, m) && j.InTiles() && j.InRange()
    ensures j.startRange.Contains(j.StartTarget(m)) && (j.fixStart ==> m == Still)
    ensures j.StartTarget(m) == (if m == Up then j.from.end + 1 else if m == Down then j.from.start else j.start)
    ensures m == Up ==> !j.same && inwards
  {
  }

  lemma EndPlace(j: Job, inwards: bool, n: Move)
    requires j.PrefersEnd(inwards, n) && j.InTiles() && j.InRange()
    ensures j.endRange.Contains(j.EndTarget(n)) && (j.fixEnd ==> n == Still)
    ensures j.EndTarget(n) == (if n == Up then j.to.end else if n == Down then j.to.start - 1 else j.end)
    ensures n == Down ==> !j.same && inwards
  {
  }

  /** Where the moves lead. */
  lemma MovesPlace(j: Job, m: Move, n: Move, m': Move, n': Move)
    requires j.Moves(m, n, m', n') && j.InTiles() && j.InRange()
    ensures var r := Geom(j.StartTarget(m'), j.EndTarget(n'));
            && j.startRange.Contains(r.start) && j.endRange.Contains(r.end)
            && (j.fixStart ==> r.start == j.start) && (j.fixEnd ==> r.end == j.end)
            && (j.fixStart == j.fixEnd && j.start <= j.end ==> r.start <= r.end)
  {
    hide Preferred, Target, Boundary, Job.PrefersStart, Job.PrefersEnd, Job.StartTarget, Job.EndTarget;
    StartPlace(j, true, m);
    EndPlace(j, true, n);
    if Crosses(j.from, j.to, m, n) {
      if Abs(j.EndTarget(n) - j.end) < Abs(j.StartTarget(m) - j.start) { StartPlace(j, false, m'); } else { EndPlace(j, false, n'); }
    }
  }

  method Choose(j: Job) returns (r: Geom)
    requires j.InTiles() && j.InRange()
    ensures j.Snapped(r) && j.startRange.Contains(r.start) && j.endRange.Contains(r.end)
    ensures j.fixStart == j.fixEnd && j.start <= j.end ==> r.start <= r.end
    ensures j.fixStart ==> r.start == j.start
    ensures j.fixEnd ==> r.end == j.end
  {
    hide Preferred, Target, Boundary;
    var m, startDist, startUp, startDown := PreferSnap(j.start, First, j.startRange, !j.fixStart && !j.same, !j.fixStart, j.from);
    var n, endDist, endUp, endDown := PreferSnap(j.end, Last, j.endRange, !j.fixEnd, !j.fixEnd && !j.same, j.to);
    assert startDist >= 0 && endDist >= 0;
    assert j.PrefersStart(true, m) && j.PrefersEnd(true, n);
    var m', n' := m, n;
    if j.from.end + 1 == j.to.start && m == Up && n == Down {
      if endDist < startDist {
        m', startDist, startUp, startDown := PreferSnap(j.start, First, j.startRange, false, startDown, j.from);
        assert startDist >= 0;
        PreferAgain(First, j.startRange, j.from, false, !j.fixStart, j.start, m');
        assert j.PrefersStart(false, m');
      } else {
        n', endDist, endUp, endDown := PreferSnap(j.end, Last, j.endRange, endUp, false, j.to);
        assert endDist >= 0;
        PreferAgain(Last, j.endRange, j.to, !j.fixEnd, false, j.end, n');
        assert j.PrefersEnd(false, n');
      }
    }
    assert j.Moves(m, n, m', n');
    MovesPlace(j, m, n, m', n');
    r := Geom(j.StartTarget(m'), j.EndTarget(n'));
    assert j.startRange.Contains(r.start);
    assert j.endRange.Contains(r.end);
  }

  /** The snapped region is one exactly when the ends meet. */
  lemma MeetExactly(j: Job, r: Geom)
    requires j.InTiles() && j.InRange() && j.Snapped(r) && (j.fixStart == j.fixEnd ==> j.start <= j.end)
    ensures r.start <= r.end <==> j.EndsMeet()
  {
    hide Preferred, Target, Boundary, Job.PrefersStart, Job.PrefersEnd, Job.StartTarget, Job.EndTarget;
    var m, n, m', n' :| j.Moves(m, n, m', n') && r == Geom(j.StartTarget(m'), j.EndTarget(n'));
    MovesPlace(j, m, n, m', n');
    StartPlace(j, true, m);
    EndPlace(j, true, n);
    forall q | j.PrefersEnd(true, q) ensures q == n { EndUnique(j, true, n, q); }
    forall p | j.PrefersStart(true, p) ensures p == m { StartUnique(j, true, m, p); }
  }

  /** The snapped region is determined. */
  lemma SnappedUnique(j: Job, r: Geom, r': Geom)
    requires j.InTiles() && j.Snapped(r) && j.Snapped(r')
    ensures r == r'
  {
    hide Job.PrefersStart, Job.PrefersEnd, Target;
    var m, n, m', n' :| j.Moves(m, n, m', n') && r == Geom(j.StartTarget(m'), j.EndTarget(n'));
    var p, q, p', q' :| j.Moves(p, q, p', q') && r' == Geom(j.StartTarget(p'), j.EndTarget(q'));
    StartUnique(j, true, m, p);
    EndUnique(j, true, n, q);
    if m' != p' { StartUnique(j, false, m', p'); }
    if n' != q' { EndUnique(j, false, n', q'); }
  }

  lemma StartUnique(j: Job, inwards: bool, m: Move, p: Move)
    requires j.InTiles() && j.PrefersStart(inwards, m) && j.PrefersStart(inwards, p)
    ensures m == p
  {
    if !j.fixStart { PreferredUnique(First, j.startRange, j.from, !j.same && inwards, true, j.start, m, p); }
  }

  lemma EndUnique(j: Job, inwards: bool, n: Move, q: Move)
    requires j.InTiles() && j.PrefersEnd(inwards, n) && j.PrefersEnd(inwards, q)
    ensures n == q
  {
    if !j.fixEnd { PreferredUnique(Last, j.endRange, j.to, true, !j.same && inwards, j.end, n, q); }
  }

  // ---- on a partition table ---------------------------------------------------------------------------

  /** On a complete table the entries found for two sectors are the same or lie one
      after the other. */
  lemma TilesInOrder(d: Disk, core: Disk, env: Env, a: Ref, b: Ref, s: int, e: int)
    requires Complete(d, core) && Sound(core, env) && s <= e
    requires RefOk(d, a) && RefOk(d, b) && Hits(d, a, s) && Hits(d, b, e) && a != b
    ensures PartAt(d, a).geom.end < PartAt(d, b).geom.start
  {
    hide Actives, Blank, AllTables, Sound, Tiles, TilesExt, Level;
    TilesOrdered(d.prims, 0, d.len - 1);
    match (a, b)
    case (Prim(i), Prim(k)) => InList(d.prims, i, k, s, e);
    case (Log(i), Log(k)) => NoLogs(d, core); LogsOrdered(d, core); InList(d.logs, i, k, s, e);
    case (Prim(i), Log(k)) => NoLogs(d, core); LogsOrdered(d, core); Outside(d, i, k);
    case (Log(i), Prim(k)) => NoLogs(d, core); LogsOrdered(d, core); Outside(d, k, i);
  }

  lemma InList(l: seq<Part>, i: nat, k: nat, s: int, e: int)
    requires Ordered(l) && i < |l| && k < |l| && i != k && s <= e && l[i].geom.Contains(s) && l[k].geom.Contains(e)
    ensures l[i].geom.end < l[k].geom.start
  {
  }

  lemma NoLogs(d: Disk, core: Disk)
    requires Complete(d, core) && d.logs != []
    ensures HasExt(d)
  {
  }

  lemma Outside(d: Disk, i: nat, k: nat)
    requires HasExt(d) && Ordered(d.prims) && i < |d.prims| && d.prims[i].kind != Extended && k < |d.logs|
    requires Within(d.logs, ExtPart(d).geom.start, ExtPart(d).geom.end)
    ensures d.logs[k].geom.start > d.prims[i].geom.end || d.logs[k].geom.end < d.prims[i].geom.start
  {
    var x := ExtIndex(d.prims);
    if i < x { assert d.prims[i].geom.end < d.prims[x].geom.start; }
    else { assert d.prims[x].geom.end < d.prims[i].geom.start; }
  }

  /** Where the ends go before their moves are chosen. */
  function JobOf(d: Disk, a: Ref, b: Ref, g: Geom, was: Option<Geom>, startRange: Geom, endRange: Geom): Job
    requires RefOk(d, a) && RefOk(d, b)
  {
    var fixStart := was.Some? && startRange.Contains(was.value.start);
    var fixEnd := was.Some? && endRange.Contains(was.value.end);
    Job(if fixStart then was.value.start else g.start, if fixEnd then was.value.end else g.end,
        fixStart, fixEnd, PartAt(d, a).geom, PartAt(d, b).geom, a == b, startRange, endRange)
  }

  /** `snap_to_boundaries` on a complete table.  `found` tells whether both sectors have an
      entry, without which it would go through a null pointer; `ok` tells whether its
      last assertion holds. */
  method SnapToBoundaries(d: Disk, g: Geom, was: Option<Geom>, startRange: Geom, endRange: Geom,
                          ghost core: Disk, ghost env: Env)
    returns (r: Geom, found: bool, ok: bool)
    requires Complete(d, core) && Sound(core, env) && g.start <= g.end
    requires startRange.Contains(g.start) && endRange.Contains(g.end) && (was.Some? ==> was.value.start <= was.value.end)
    ensures found <==> HasEntry(d, g.start) && HasEntry(d, g.end)
    ensures found ==> exists a, b :: RefOk(d, a) && RefOk(d, b) && Hits(d, a, g.start) && Hits(d, b, g.end)
    ensures found ==> startRange.Contains(r.start) && endRange.Contains(r.end) && ok == (r.start <= r.end)
    ensures forall a, b :: RefOk(d, a) && RefOk(d, b) && Hits(d, a, g.start) && Hits(d, b, g.end) ==>
              && JobOf(d, a, b, g, was, startRange, endRange).Snapped(r)
              && (ok <==> JobOf(d, a, b, g, was, startRange, endRange).EndsMeet())
  {
    hide Complete, Sound, Traversal, Hits, Job.Snapped, Job.EndsMeet, HasEntry;
    TraversalOk(d);
    BySectorUnique(d, core, env, g.start);
    BySectorUnique(d, core, env, g.end);
    var from, to := BySector(d, Traversal(d), g.start), BySector(d, Traversal(d), g.end);
    if from.None? || to.None? { return g, false, false; }
    found := true;
    var a, b := from.value, to.value;
    HitsContains(d, a, g.start);
    HitsContains(d, b, g.end);
    if a != b { TilesInOrder(d, core, env, a, b, g.start, g.end); }
    var start, end, fixStart, fixEnd := g.start, g.end, false, false;
    if was.Some? {
      start, fixStart := SnapTo(start, was.value.start, startRange);
      end, fixEnd := SnapTo(end, was.value.end, endRange);
    }
    var j := Job(start, end, fixStart, fixEnd, PartAt(d, a).geom, PartAt(d, b).geom, a == b, startRange, endRange);
    assert j == JobOf(d, a, b, g, was, startRange, endRange);
    r := Choose(j);
    ok := r.start <= r.end;
    MeetExactly(j, r);
  }

  lemma HitsContains(d: Disk, ref: Ref, sector: int)
    requires RefOk(d, ref) && Hits(d, ref, sector)
    ensures PartAt(d, ref).geom.Contains(sector)
  {
  }

  /** With one end fixed to the old region the last assertion can fail, on every table
      and inside every tile with room for it: asked to snap the one sector `s`, with an
      old region from `s + 1` to `s + 2` whose start is in range and whose end is not,
      the start is moved past an end that stays. */
  lemma FixedEndCrosses(d: Disk, a: Ref, s: int)
    requires RefOk(d, a) && Hits(d, a, s) && PartAt(d, a).geom.start < s < PartAt(d, a).geom.end - 1
    ensures var j := JobOf(d, a, a, Geom(s, s), Some(Geom(s + 1, s + 2)), Geom(s, s + 1), Geom(s - 1, s));
            j.InTiles() && j.InRange() && j.Snapped(Geom(s + 1, s)) && !j.EndsMeet()
  {
    var j := JobOf(d, a, a, Geom(s, s), Some(Geom(s + 1, s + 2)), Geom(s, s + 1), Geom(s - 1, s));
    assert j.Moves(Still, Still, Still, Still);
    MeetExactly(j, Geom(s + 1, s));
  }
}
