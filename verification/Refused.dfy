/** What a refused change of a primary partition leaves behind outside update mode: the
    placeholders are computed while it still has the region that it was refused, and
    only then is its old region put back (libparted/disk.c:2340-2346). */
module Refused {
  import opened CInt
  import opened Geometry
  import A = Alignment
  import opened PartList
  import opened Disk
  import opened DiskLayout
  import opened Tiling
  import opened DiskOps
  import opened DiskInvariant
  import opened Aborting

  // ---- tilings in pieces ---------------------------------------------------------------------------

  /** The free-space loop up to the last entry, without what comes behind it. */
  function Front(s: seq<Part>, lastEnd: int, kind: Kind): seq<Part> {
    if s == [] then []
    else
      var own := [s[0]] + Front(s[1..], s[0].geom.end, kind);
      if s[0].geom.start > lastEnd + 1 then [Placeholder(kind, lastEnd + 1, s[0].geom.start - 1)] + own else own
  }

  function EndOf(s: seq<Part>, lastEnd: int): int {
    if s == [] then lastEnd else s[|s| - 1].geom.end
  }

  lemma WithGapJoin(p: Part, lastEnd: int, kind: Kind, rest: seq<Part>, tail: seq<Part>)
    ensures WithGap(p, lastEnd, kind, rest) + tail == WithGap(p, lastEnd, kind, rest + tail)
  {
    assert ([p] + rest) + tail == [p] + (rest + tail);
    if p.geom.start > lastEnd + 1 {
      var gap := [Placeholder(kind, lastEnd + 1, p.geom.start - 1)];
      assert (gap + ([p] + rest)) + tail == gap + (([p] + rest) + tail);
    }
  }

  lemma FrontCons(a: seq<Part>, lastEnd: int, kind: Kind)
    requires a != []
    ensures Front(a, lastEnd, kind) == WithGap(a[0], lastEnd, kind, Front(a[1..], a[0].geom.end, kind))
  {
  }

  lemma {:induction false} FillSplit(a: seq<Part>, t: seq<Part>, lastEnd: int, hi: int, kind: Kind)
    ensures FillFree(a + t, lastEnd, hi, kind) == Front(a, lastEnd, kind) + FillFree(t, EndOf(a, lastEnd), hi, kind)
  {
    if a == [] {
      assert a + t == t;
      assert [] + FillFree(t, lastEnd, hi, kind) == FillFree(t, lastEnd, hi, kind);
    } else {
      hide FillFree, Front, WithGap;
      var tail := FillFree(t, EndOf(a, lastEnd), hi, kind);
      assert (a + t)[0] == a[0] && (a + t)[1..] == a[1..] + t;
      FillIs(a + t, lastEnd, hi, kind);
      FillSplit(a[1..], t, a[0].geom.end, hi, kind);
      FrontCons(a, lastEnd, kind);
      WithGapJoin(a[0], lastEnd, kind, Front(a[1..], a[0].geom.end, kind), tail);
    }
  }

  lemma {:induction false} FrontTiles(a: seq<Part>, lastEnd: int, kind: Kind)
    requires Ordered(a) && -1 <= lastEnd && (a != [] ==> a[0].geom.start > lastEnd)
    ensures Tiles(Front(a, lastEnd, kind), lastEnd + 1, EndOf(a, lastEnd))
  {
    if a != [] {
      OrderedTail(a);
      assert a[0].geom.Valid();
      if |a| > 1 { assert a[0].geom.end < a[1].geom.start; }
      FrontTiles(a[1..], a[0].geom.end, kind);
      FrontStep(a, lastEnd, kind);
    }
  }

  lemma FrontStep(a: seq<Part>, lastEnd: int, kind: Kind)
    requires a != [] && a[0].geom.Valid() && -1 <= lastEnd < a[0].geom.start
    requires Tiles(Front(a[1..], a[0].geom.end, kind), a[0].geom.end + 1, EndOf(a[1..], a[0].geom.end))
    ensures Tiles(Front(a, lastEnd, kind), lastEnd + 1, EndOf(a, lastEnd))
  {
    hide Tiles, Front, EndOf;
    var rest, last := Front(a[1..], a[0].geom.end, kind), EndOf(a, lastEnd);
    FrontIs(a, lastEnd, kind);
    TilesFirst(a[0], rest, a[0].geom.start, last);
    if a[0].geom.start > lastEnd + 1 {
      TilesFirst(Placeholder(kind, lastEnd + 1, a[0].geom.start - 1), [a[0]] + rest, lastEnd + 1, last);
    }
  }

  lemma FrontIs(a: seq<Part>, lastEnd: int, kind: Kind)
    requires a != []
    ensures EndOf(a, lastEnd) == EndOf(a[1..], a[0].geom.end)
    ensures var own := [a[0]] + Front(a[1..], a[0].geom.end, kind);
            Front(a, lastEnd, kind) ==
            if a[0].geom.start > lastEnd + 1 then [Placeholder(kind, lastEnd + 1, a[0].geom.start - 1)] + own else own
  {
  }

  lemma TilesFirst(p: Part, s: seq<Part>, lo: int, hi: int)
    ensures Tiles([p] + s, lo, hi) <==> p.geom.start == lo && p.geom.Valid() && Tiles(s, p.geom.end + 1, hi)
  {
    assert ([p] + s)[1..] == s;
  }

  function NextStart(b: seq<Part>, hi: int): int {
    if b == [] then hi + 1 else b[0].geom.start
  }

  /** What the loop puts behind an entry that ends at `lastEnd` tiles from the next
      sector on, or from the next entry if that comes earlier, and from nowhere else. */
  lemma RestTiles(b: seq<Part>, lastEnd: int, hi: int, kind: Kind, lo: int)
    requires Ordered(b) && Within(b, 0, hi) && 0 <= lastEnd && 0 <= lo
    ensures Tiles(FillFree(b, lastEnd, hi, kind), lo, hi) <==>
            lo == Min(lastEnd + 1, NextStart(b, hi))
  {
    hide Tiles;
    if b == [] {
      EmptyTiles(lo, hi);
      EmptyTiles(hi + 1, hi);
      if lastEnd < hi {
        var gap := Placeholder(kind, lastEnd + 1, hi);
        TilesFirst(gap, [], lo, hi);
        assert [gap] + [] == [gap];
      }
    } else {
      assert b[0].geom.Valid();
      OrderedTail(b);
      var rest := FillFree(b[1..], b[0].geom.end, hi, kind);
      FillTiles(b[1..], b[0].geom.end, hi, kind);
      var own := [b[0]] + rest;
      TilesFirst(b[0], rest, lo, hi);
      TilesFirst(b[0], rest, b[0].geom.start, hi);
      if b[0].geom.start > lastEnd + 1 {
        var gap := Placeholder(kind, lastEnd + 1, b[0].geom.start - 1);
        assert FillFree(b, lastEnd, hi, kind) == [gap] + own;
        TilesFirst(gap, own, lo, hi);
      } else {
        assert FillFree(b, lastEnd, hi, kind) == own;
      }
    }
  }

  lemma EmptyTiles(lo: int, hi: int)
    ensures Tiles([], lo, hi) <==> lo == hi + 1
  {
  }

  // ---- the list after a refusal ------------------------------------------------------------------------

  /** The entry behind the active ones of `pre` gets its region back. */
  lemma {:induction false} RestoreBehind(pre: seq<Part>, x: Part, rest: seq<Part>, geom: Geom)
    requires x.kind.Active()
    ensures Restore(pre + ([x] + rest), |Actives(pre)|, geom) == pre + ([x.(geom := geom)] + rest)
  {
    var s := pre + ([x] + rest);
    if pre == [] {
      assert s == [x] + rest && s[1..] == rest;
      assert pre + ([x.(geom := geom)] + rest) == [x.(geom := geom)] + rest;
    } else {
      assert s[0] == pre[0] && s[1..] == pre[1..] + ([x] + rest);
      RestoreBehind(pre[1..], x, rest, geom);
      assert [pre[0]] + (pre[1..] + ([x.(geom := geom)] + rest)) == pre + ([x.(geom := geom)] + rest);
    }
  }

  lemma GapInactive(gap: seq<Part>)
    requires |gap| <= 1 && forall i :: 0 <= i < |gap| ==> gap[i].kind == Free
    ensures Actives(gap) == []
  {
    if gap != [] { assert gap[1..] == []; }
  }

  function GapBeforeOf(l: int, start: int): seq<Part> {
    if start > l + 1 then [Placeholder(Free, l + 1, start - 1)] else []
  }

  lemma {:induction false} TilesPieces(p: seq<Part>, q: seq<Part>, lo: int, hi: int)
    ensures Tiles(p + q, lo, hi) <==> Tiles(p, lo, EndOf(p, lo - 1)) && Tiles(q, EndOf(p, lo - 1) + 1, hi)
  {
    if p == [] {
      assert p + q == q;
    } else {
      assert (p + q)[0] == p[0] && (p + q)[1..] == p[1..] + q;
      TilesPieces(p[1..], q, p[0].geom.end + 1, hi);
      assert EndOf(p[1..], p[0].geom.end) == EndOf(p, lo - 1);
    }
  }

  lemma {:induction false} FrontEnd(a: seq<Part>, lastEnd: int, kind: Kind)
    ensures EndOf(Front(a, lastEnd, kind), lastEnd) == EndOf(a, lastEnd)
  {
    if a != [] {
      FrontIs(a, lastEnd, kind);
      FrontEnd(a[1..], a[0].geom.end, kind);
      var rest := Front(a[1..], a[0].geom.end, kind);
      assert EndOf([a[0]] + rest, lastEnd) == EndOf(rest, a[0].geom.end);
    }
  }

  /** The list that is filled, with its entry `x`. */
  lemma FillAround(a: seq<Part>, x: Part, b: seq<Part>, lastEnd: int, hi: int)
    ensures FillFree(a + ([x] + b), lastEnd, hi, Free) ==
            (Front(a, lastEnd, Free) + GapBeforeOf(EndOf(a, lastEnd), x.geom.start)) + ([x] + FillFree(b, x.geom.end, hi, Free))
  {
    hide FillFree, Front;
    var l := EndOf(a, lastEnd);
    var f, gap, own := Front(a, lastEnd, Free), GapBeforeOf(l, x.geom.start), [x] + FillFree(b, x.geom.end, hi, Free);
    FillSplit(a, [x] + b, lastEnd, hi, Free);
    FillIs([x] + b, l, hi, Free);
    assert ([x] + b)[1..] == b;
    assert FillFree([x] + b, l, hi, Free) == gap + own;
    assert f + (gap + own) == (f + gap) + own;
  }

  lemma {:induction false} FrontActs(a: seq<Part>, lastEnd: int)
    ensures Actives(Front(a, lastEnd, Free)) == Actives(a)
  {
    if a != [] {
      hide Actives;
      FrontIs(a, lastEnd, Free);
      FrontActs(a[1..], a[0].geom.end);
      var rest := Front(a[1..], a[0].geom.end, Free);
      var gap := Placeholder(Free, lastEnd + 1, a[0].geom.start - 1);
      ActivesPrepend(a[0], rest);
      ActivesPrepend(a[0], a[1..]);
      assert [a[0]] + a[1..] == a;
      ActivesPrepend(gap, [a[0]] + rest);
    }
  }

  /** Filled around `x` and with its region put back. */
  function PutBack(a: seq<Part>, x: Part, b: seq<Part>, hi: int, was: Geom): seq<Part> {
    Restore(FillFree(a + ([x] + b), -1, hi, Free), |Actives(a)|, was)
  }

  lemma PutBackIs(a: seq<Part>, x: Part, b: seq<Part>, hi: int, was: Geom)
    requires x.kind.Active()
    ensures PutBack(a, x, b, hi, was) ==
            (Front(a, -1, Free) + GapBeforeOf(EndOf(a, -1), x.geom.start)) + ([x.(geom := was)] + FillFree(b, x.geom.end, hi, Free))
  {
    hide FillFree, Front, Restore, Actives;
    FillAround(a, x, b, -1, hi);
    var pre := Front(a, -1, Free) + GapBeforeOf(EndOf(a, -1), x.geom.start);
    FrontActs(a, -1);
    ActivesConcat(Front(a, -1, Free), GapBeforeOf(EndOf(a, -1), x.geom.start));
    GapInactive(GapBeforeOf(EndOf(a, -1), x.geom.start));
    assert Actives(pre) == Actives(a) + [];
    RestoreBehind(pre, x, FillFree(b, x.geom.end, hi, Free), was);
  }

  lemma GapEnd(a: seq<Part>, start: int)
    ensures EndOf(Front(a, -1, Free) + GapBeforeOf(EndOf(a, -1), start), -1) == Max(start, EndOf(a, -1) + 1) - 1
  {
    hide Front;
    FrontEnd(a, -1, Free);
    var f, gap := Front(a, -1, Free), GapBeforeOf(EndOf(a, -1), start);
    if gap == [] { assert f + gap == f; } else { assert (f + gap)[|f + gap| - 1] == gap[0]; }
  }

  /** Only an entry that starts where it was taken to start can leave a tiling. */
  lemma PutBackStart(a: seq<Part>, x: Part, b: seq<Part>, hi: int, was: Geom)
    requires x.kind.Active() && Tiles(PutBack(a, x, b, hi, was), 0, hi)
    ensures was.start == Max(x.geom.start, EndOf(a, -1) + 1)
  {
    hide FillFree, Front, Tiles, PutBack;
    PutBackIs(a, x, b, hi, was);
    var pre, rest := Front(a, -1, Free) + GapBeforeOf(EndOf(a, -1), x.geom.start), FillFree(b, x.geom.end, hi, Free);
    TilesPieces(pre, [x.(geom := was)] + rest, 0, hi);
    GapEnd(a, x.geom.start);
    TilesFirst(x.(geom := was), rest, Max(x.geom.start, EndOf(a, -1) + 1), hi);
  }

  /** Between ordered neighbours: exactly when it also ends where it was taken to end. */
  lemma PutBackTiles(a: seq<Part>, x: Part, b: seq<Part>, hi: int, was: Geom)
    requires x.kind.Active() && x.geom.Valid() && was.Valid()
    requires Ordered(a) && (a != [] ==> a[0].geom.start >= 0) && Ordered(b) && Within(b, 0, hi)
    ensures Tiles(PutBack(a, x, b, hi, was), 0, hi) <==>
            && was.start == Max(x.geom.start, EndOf(a, -1) + 1)
            && was.end + 1 == Min(x.geom.end + 1, NextStart(b, hi))
  {
    hide FillFree, Front, Tiles, PutBack, Ordered;
    PutBackIs(a, x, b, hi, was);
    var pre, rest := Front(a, -1, Free) + GapBeforeOf(EndOf(a, -1), x.geom.start), FillFree(b, x.geom.end, hi, Free);
    TilesPieces(pre, [x.(geom := was)] + rest, 0, hi);
    GapEnd(a, x.geom.start);
    PreTilesToo(a, x.geom.start);
    TilesFirst(x.(geom := was), rest, Max(x.geom.start, EndOf(a, -1) + 1), hi);
    RestTiles(b, x.geom.end, hi, Free, was.end + 1);
  }

  lemma PreTilesToo(a: seq<Part>, start: int)
    requires Ordered(a) && (a != [] ==> a[0].geom.start >= 0) && start >= 0
    ensures var pre := Front(a, -1, Free) + GapBeforeOf(EndOf(a, -1), start);
            Tiles(pre, 0, EndOf(pre, -1))
  {
    hide Tiles, Front, EndOf, GapBeforeOf;
    FrontTiles(a, -1, Free);
    GapEnd(a, start);
    FrontEnd(a, -1, Free);
    LastEndNonNeg(a);
    GapTiles(EndOf(a, -1), start);
    TilesPieces(Front(a, -1, Free), GapBeforeOf(EndOf(a, -1), start), 0, Max(start, EndOf(a, -1) + 1) - 1);
  }

  lemma GapTiles(l: int, start: int)
    requires l >= -1
    ensures Tiles(GapBeforeOf(l, start), l + 1, Max(start, l + 1) - 1)
  {
    hide Tiles;
    if start > l + 1 {
      var gap := Placeholder(Free, l + 1, start - 1);
      TilesFirst(gap, [], l + 1, start - 1);
      EmptyTiles(start, start - 1);
      assert [gap] + [] == [gap];
    } else {
      EmptyTiles(l + 1, l);
    }
  }

  lemma LastEndNonNeg(a: seq<Part>)
    requires Ordered(a)
    ensures EndOf(a, -1) >= -1
  {
    if a != [] { assert a[|a| - 1].geom.Valid(); }
  }

  // ---- what the labels add -----------------------------------------------------------------------------

  /** A list whose `k`-th active entry is `x`, split there. */
  lemma {:induction false} SplitActive(t: seq<Part>, k: nat) returns (a: seq<Part>, b: seq<Part>)
    requires k < |Actives(t)|
    ensures t == a + ([Actives(t)[k]] + b) && |Actives(a)| == k
  {
    if t[0].kind.Active() && k == 0 {
      a, b := [], t[1..];
      assert t == [] + ([t[0]] + t[1..]);
    } else {
      hide Actives;
      ActivesHead(t);
      var j := if t[0].kind.Active() then k - 1 else k;
      var a1;
      a1, b := SplitActive(t[1..], j);
      a := [t[0]] + a1;
      ActivesPrepend(t[0], a1);
      Regroup(t, a1, Actives(t[1..])[j], b);
    }
  }

  lemma Regroup(t: seq<Part>, a: seq<Part>, x: Part, b: seq<Part>)
    requires t != [] && t[1..] == a + ([x] + b)
    ensures t == ([t[0]] + a) + ([x] + b)
  {
    assert t == [t[0]] + t[1..];
  }

  lemma InsertFront(s: seq<Part>, p: Part)
    requires s != [] ==> s[0].geom.start > p.geom.end
    ensures Insert(s, p) == [p] + s
  {
    InsertPointIs(s, p.geom.end, 0);
  }

  lemma InsertBack(s: seq<Part>, p: Part)
    requires forall i :: 0 <= i < |s| ==> s[i].geom.start <= p.geom.end
    ensures Insert(s, p) == s + [p]
  {
    InsertPointIs(s, p.geom.end, |s|);
  }

  /** What decides about the two placeholders of an msdos label. */
  lemma EndsSought(s: seq<Part>)
    requires s != [] && forall i :: 0 <= i < |s| ==> s[i].kind.Normal? || s[i].kind.Extended?
    ensures FirstStart(s) == Some(s[0].geom.start) && LastEnd(s) == Some(s[|s| - 1].geom.end)
  {
  }

  function FrontMeta(initEnd: int): seq<Part> {
    if 0 < initEnd then [Placeholder(Meta, 0, initEnd)] else []
  }

  function BackMeta(initEnd: int, finalStart: int, len: int): seq<Part> {
    if finalStart < len - 1 && initEnd < finalStart then [Placeholder(Meta, finalStart, len - 1)] else []
  }

  /** An msdos table whose partitions all start on the device. */
  lemma MsdosFrame(d: Disk, env: Env, cylinderAlign: bool)
    requires env.Valid() && d.len >= 2 && d.prims != []
    requires forall i :: 0 <= i < |d.prims| ==> (d.prims[i].kind.Normal? || d.prims[i].kind.Extended?) && d.prims[i].geom.start < d.len
    requires HasExt(d) ==> ExtPart(d).geom.start >= 1
                           && (ExtPart(d).geom.end < d.len - 1 || d.prims[|d.prims| - 1].geom.end >= d.len - 2)
    ensures var initEnd, finalStart := InitEnd(d, env), FinalStart(d, env, cylinderAlign);
            var r := AddStartEnd(d, env, cylinderAlign);
            r.Allocated? && r.disk.prims == FrontMeta(initEnd) + d.prims + BackMeta(initEnd, finalStart, d.len)
  {
    hide ExtIndex, AddInit, AddFinal, FrontMeta, BackMeta, InitEnd, FinalStart;
    var initEnd, finalStart := InitEnd(d, env), FinalStart(d, env, cylinderAlign);
    MetaBounds(d, env, cylinderAlign);
    InitFrame(d, initEnd);
    var d1 := d.(prims := FrontMeta(initEnd) + d.prims);
    InitExt(d, d1, initEnd);
    StartsLow(d, initEnd);
    FinalFrame(d1, initEnd, finalStart);
  }

  /** The first placeholder ends before the first partition, the second starts behind the
      last one. */
  lemma MetaBounds(d: Disk, env: Env, cylinderAlign: bool)
    requires env.Valid() && d.prims != [] && forall i :: 0 <= i < |d.prims| ==> d.prims[i].kind.Normal? || d.prims[i].kind.Extended?
    ensures InitEnd(d, env) < d.prims[0].geom.start
    ensures var f := FinalStart(d, env, cylinderAlign); f < d.len - 1 ==> d.prims[|d.prims| - 1].geom.end < f
  {
    hide A.RoundDownTo, FirstStart, LastEnd;
    EndsSought(d.prims);
  }

  lemma StartsLow(d: Disk, initEnd: int)
    requires d.len > 0 && forall i :: 0 <= i < |d.prims| ==> d.prims[i].geom.start < d.len
    ensures var s := FrontMeta(initEnd) + d.prims; forall i :: 0 <= i < |s| ==> s[i].geom.start < d.len
  {
    var f, s := FrontMeta(initEnd), FrontMeta(initEnd) + d.prims;
    forall i | 0 <= i < |s| ensures s[i].geom.start < d.len {
      if i >= |f| { assert s[i] == d.prims[i - |f|]; }
    }
  }

  lemma FinalFrame(d: Disk, initEnd: int, finalStart: int)
    requires forall i :: 0 <= i < |d.prims| ==> d.prims[i].geom.start < d.len
    requires HasExt(d) ==> ExtPart(d).geom.end < d.len - 1 || finalStart >= d.len - 1
    ensures AddFinal(d, initEnd, finalStart) == Allocated(d.(prims := d.prims + BackMeta(initEnd, finalStart, d.len)))
  {
    hide Insert, ExtIndex;
    if finalStart < d.len - 1 && initEnd < finalStart {
      InsertBack(d.prims, Placeholder(Meta, finalStart, d.len - 1));
    } else {
      assert d.prims + [] == d.prims;
    }
  }

  lemma InitFrame(d: Disk, initEnd: int)
    requires d.prims != [] && initEnd < d.prims[0].geom.start && d.prims[0].geom.start < d.len && (HasExt(d) ==> ExtPart(d).geom.start >= 1)
    ensures AddInit(d, initEnd) == Allocated(d.(prims := FrontMeta(initEnd) + d.prims))
  {
    hide Insert;
    if 0 < initEnd { InsertFront(d.prims, Placeholder(Meta, 0, initEnd)); } else { assert [] + d.prims == d.prims; }
  }

  lemma InitExt(d: Disk, d1: Disk, initEnd: int)
    requires d1.prims == FrontMeta(initEnd) + d.prims
    ensures HasExt(d1) == HasExt(d) && (HasExt(d) ==> ExtPart(d1) == ExtPart(d))
  {
    hide Actives, ExtIndex;
    ActivesConcat(FrontMeta(initEnd), d.prims);
    MetaInactive(FrontMeta(initEnd));
    assert Actives(d1.prims) == [] + Actives(d.prims);
    SameExt(d1.prims, d.prims);
  }

  lemma MetaInactive(m: seq<Part>)
    requires |m| <= 1 && forall i :: 0 <= i < |m| ==> m[i].kind == Meta
    ensures Actives(m) == []
  {
    if m != [] { assert m[1..] == []; }
  }

  lemma {:induction false} LogMetasPrims(d: Disk, env: Env, i: int)
    requires env.Valid() && HasExt(d)
    ensures var r := AddLogMetas(d, env, i); !r.AssertFails? ==> r.disk.prims == d.prims
    decreases MAX_TOTAL_PART + 1 - i
  {
    hide Insert, LogMetaStart;
    var k := NumIndex(d.logs, i);
    if k >= 0 && i <= MAX_TOTAL_PART {
      var r := AddLogMeta(d, env.probe(ExtPart(d)), k);
      if r.Allocated? { LogMetasPrims(r.disk, env, i + 1); }
    }
  }

  /** The primary list is settled by the first two placeholders. */
  lemma AllocPrims(d: Disk, env: Env)
    requires env.Valid() && env.scheme.Msdos? && !AllocMeta(d, env).AssertFails?
    ensures var r := AddStartEnd(d, env, env.scheme.cylinderAlign); !r.AssertFails? && AllocMeta(d, env).disk.prims == r.disk.prims
  {
    hide AddLogMetas, ExtTableEnd, LastEnd, Insert, AddStartEnd, ExtIndex;
    var r1 := AddStartEnd(d, env, env.scheme.cylinderAlign);
    if r1.Allocated? && HasExt(r1.disk) { LogMetasPrims(r1.disk, env, 5); }
  }

  lemma PopPrims(d: Disk, env: Env)
    requires AllActive(d.prims) && AllActive(d.logs) && env.Valid() && d.mode == 1 && (!HasExt(d) ==> d.logs == [])
    requires Pop(d, env).Ret?
    ensures !AllocMeta(d, env).AssertFails? && Actives(AllocMeta(d, env).disk.prims) == d.prims
    ensures Pop(d, env).value.prims == FillFree(AllocMeta(d, env).disk.prims, -1, d.len - 1, Free)
  {
    hide AllocMeta, Actives, FillFree, DropFree, ExtIndex;
    AllocMetaKeeps(d, env);
    DropFreeKeeps(AllocMeta(d, env).disk.prims);
  }

  // ---- one primary partition left elsewhere -------------------------------------------------------------

  /** The old region starts where the region left behind was taken to start and ends
      where it was taken to end; sector 0 was not asked for. */
  predicate TakenAsIs(s: seq<Part>, k: nat, g: Geom, len: int)
    requires k < |s|
  {
    && (k > 0 || g.start >= 1)
    && s[k].geom.start == Max(g.start, EndOf(s[..k], 0) + 1)
    && s[k].geom.end + 1 == Min(g.end + 1, NextStart(s[k + 1..], len - 1))
  }

  lemma FrameStart(s: seq<Part>, k: nat, g: Geom, front: seq<Part>)
    requires k < |s| && Ordered(s) && s[0].geom.start >= 1 && g.Valid() && |front| <= 1
    requires front != [] ==> 0 <= front[0].geom.end < (if k == 0 then g.start else s[0].geom.start)
    ensures s[k].geom.start == Max(g.start, EndOf(front + s[..k], -1) + 1) <==>
            (k > 0 || g.start >= 1) && s[k].geom.start == Max(g.start, EndOf(s[..k], 0) + 1)
  {
    if k > 0 {
      assert (front + s[..k])[|front + s[..k]| - 1] == s[k - 1];
    } else {
      assert front + s[..k] == front;
    }
  }

  lemma FrameEnd(s: seq<Part>, k: nat, g: Geom, back: seq<Part>, hi: int)
    requires k < |s| && |back| <= 1
    requires back != [] ==> back[0].geom.start <= hi && (k + 1 == |s| ==> g.end < back[0].geom.start)
    ensures Min(g.end + 1, NextStart(s[k + 1..] + back, hi)) == Min(g.end + 1, NextStart(s[k + 1..], hi))
  {
  }

  lemma FrameOrdered(s: seq<Part>, k: nat, g: Geom, front: seq<Part>, back: seq<Part>, hi: int)
    requires k < |s| && Ordered(s) && Within(s, 1, hi) && |front| <= 1 && |back| <= 1
    requires front != [] ==> front[0].geom.start == 0 <= front[0].geom.end && (k > 0 ==> front[0].geom.end < s[0].geom.start)
    requires back != [] ==> 0 <= back[0].geom.start <= back[0].geom.end == hi && (k + 1 < |s| ==> s[|s| - 1].geom.end < back[0].geom.start)
    ensures Ordered(front + s[..k]) && Ordered(s[k + 1..] + back) && Within(s[k + 1..] + back, 0, hi)
    ensures front + s[..k] != [] ==> (front + s[..k])[0].geom.start >= 0
  {
    hide Ordered, Within;
    SliceOrdered(s, k, hi);
    if front == [] { assert front + s[..k] == s[..k]; } else { FrontOrdered(front[0], s[..k]); assert [front[0]] == front; }
    if back == [] {
      assert s[k + 1..] + back == s[k + 1..];
    } else {
      LastOf(s, k);
      BackOrdered(s[k + 1..], back[0], hi);
      assert [back[0]] == back;
    }
  }

  lemma SliceOrdered(s: seq<Part>, k: nat, hi: int)
    requires k < |s| && Ordered(s) && Within(s, 1, hi)
    ensures Ordered(s[..k]) && Ordered(s[k + 1..]) && Within(s[k + 1..], 0, hi)
    ensures k > 0 ==> s[..k][0].geom.start >= 0
  {
  }

  lemma LastOf(s: seq<Part>, k: nat)
    requires k < |s|
    ensures k + 1 < |s| ==> s[k + 1..][|s[k + 1..]| - 1] == s[|s| - 1]
  {
  }

  lemma FrontOrdered(m: Part, s: seq<Part>)
    requires Ordered(s) && m.geom.Valid() && (s != [] ==> m.geom.end < s[0].geom.start)
    ensures Ordered([m] + s)
  {
    var r := [m] + s;
    forall i, j | 0 <= i < j < |r| ensures r[i].geom.end < r[j].geom.start {
      assert r[j] == s[j - 1];
      if i > 0 { assert r[i] == s[i - 1]; } else if j > 1 { assert s[0].geom.Valid() && s[0].geom.end < s[j - 1].geom.start; }
    }
  }

  lemma BackOrdered(s: seq<Part>, m: Part, hi: int)
    requires Ordered(s) && Within(s, 0, hi) && m.geom.Valid() && m.geom.end <= hi && (s != [] ==> s[|s| - 1].geom.end < m.geom.start)
    ensures Ordered(s + [m]) && Within(s + [m], 0, hi)
  {
    var r := s + [m];
    forall i, j | 0 <= i < j < |r| ensures r[i].geom.end < r[j].geom.start {
      assert r[i] == s[i];
      if j < |s| { assert r[j] == s[j]; }
      else if i < |s| - 1 { assert s[i].geom.end < s[|s| - 1].geom.start; assert s[|s| - 1].geom.Valid(); }
    }
  }

  /** Placeholders at the two ends only. */
  lemma FramedTiling(s: seq<Part>, k: nat, g: Geom, front: seq<Part>, back: seq<Part>, len: int)
    requires k < |s| && Ordered(s) && Within(s, 1, len - 1) && AllActive(s) && g.Valid() && |front| <= 1 && |back| <= 1
    requires forall i :: 0 <= i < |front| ==> front[i].kind == Meta
    requires front != [] ==> front[0].geom.start == 0 <= front[0].geom.end < (if k == 0 then g.start else s[0].geom.start)
    requires back != [] ==> 0 <= back[0].geom.start <= back[0].geom.end == len - 1
                            && (if k + 1 == |s| then g.end else s[|s| - 1].geom.end) < back[0].geom.start
    ensures var x := s[k].(geom := g);
            Tiles(Restore(FillFree(front + s[k := x] + back, -1, len - 1, Free), k, s[k].geom), 0, len - 1) <==> TakenAsIs(s, k, g, len)
  {
    hide Tiles, Restore, FillFree, Actives, Ordered, Within;
    var x, a, b := s[k].(geom := g), front + s[..k], s[k + 1..] + back;
    assert front + s[k := x] + back == a + ([x] + b);
    FrameActives(s, k, front);
    EntryValid(s, k);
    FrameOrdered(s, k, g, front, back, len - 1);
    PutBackTiles(a, x, b, len - 1, s[k].geom);
    FirstFrom1(s, len - 1);
    FrameStart(s, k, g, front);
    FrameEnd(s, k, g, back, len - 1);
  }

  lemma FirstFrom1(s: seq<Part>, hi: int)
    requires Within(s, 1, hi) && s != []
    ensures s[0].geom.start >= 1
  {
  }

  lemma EntryValid(s: seq<Part>, k: nat)
    requires Ordered(s) && k < |s|
    ensures s[k].geom.Valid()
  {
  }

  lemma FrameActives(s: seq<Part>, k: nat, front: seq<Part>)
    requires k < |s| && AllActive(s) && |front| <= 1 && forall i :: 0 <= i < |front| ==> front[i].kind == Meta
    ensures |Actives(front + s[..k])| == k
  {
    hide Actives;
    ActivesConcat(front, s[..k]);
    MetaInactive(front);
    ActivesOfActives(s[..k]);
  }

  // ---- on either label -----------------------------------------------------------------------------------

  lemma SoundList(core: Disk, env: Env)
    requires Sound(core, env)
    ensures Ordered(core.prims) && Within(core.prims, 1, core.len - 1) && AllActive(core.prims) && core.len >= 2
    ensures forall i :: 0 <= i < |core.prims| ==> core.prims[i].kind.Normal? || core.prims[i].kind.Extended?
  {
    hide PrimNums, LogNums, Actives;
    forall i | 0 <= i < |core.prims| ensures core.prims[i].kind.Normal? || core.prims[i].kind.Extended? { PrimKind(core, i); }
  }

  /** No extended partition stands in the way of the last placeholder. */
  lemma ExtClear(core: Disk, k: nat, x: Part, env: Env)
    requires Sound(core, env) && k < |core.prims| && core.prims[k].kind == Normal && x.kind == Normal
    ensures var d := SetPart(core, Prim(k), x);
            HasExt(d) ==> ExtPart(d).geom.start >= 1
                          && (ExtPart(d).geom.end < d.len - 1 || d.prims[|d.prims| - 1].geom.end >= d.len - 2)
  {
    hide PrimNums, LogNums, Actives;
    SetPartExt(core, Prim(k), x);
    if HasExt(core) {
      var e, n := ExtIndex(core.prims), |core.prims| - 1;
      assert core.prims[e].geom.Valid() && core.prims[e].geom.start >= 1;
      if e < n { assert core.prims[e].geom.end < core.prims[n].geom.start; assert core.prims[n].geom.Valid(); }
    }
  }

  /** The placeholders of either label, for a partition left on the device and off its
      first sector. */
  lemma LabelFrame(core: Disk, k: nat, g: Geom, env: Env) returns (front: seq<Part>, back: seq<Part>)
    requires Sound(core, env) && env.Valid() && k < |core.prims| && core.prims[k].kind == Normal && g.Valid() && g.start < core.len
    requires env.scheme.Msdos? || k > 0 || g.start >= 1
    requires !AllocMeta(SetPart(core, Prim(k), core.prims[k].(geom := g)), env).AssertFails?
    ensures var d := SetPart(core, Prim(k), core.prims[k].(geom := g));
            AllocMeta(d, env).disk.prims == front + d.prims + back
    ensures |front| <= 1 && |back| <= 1 && forall i :: 0 <= i < |front| ==> front[i].kind == Meta
    ensures front != [] ==> front[0].geom.start == 0 <= front[0].geom.end < (if k == 0 then g.start else core.prims[0].geom.start)
    ensures back != [] ==> 0 <= back[0].geom.start <= back[0].geom.end == core.len - 1
                           && (if k + 1 == |core.prims| then g.end else core.prims[|core.prims| - 1].geom.end) < back[0].geom.start
  {
    hide AllocMeta, ExtIndex, AddStartEnd, InitEnd, FinalStart, Insert, Ordered, Level, PrimNums, LogNums;
    var x := core.prims[k].(geom := g);
    var d := SetPart(core, Prim(k), x);
    SoundList(core, env);
    match env.scheme
    case Bsd =>
      front, back := [Placeholder(Meta, 0, 0)], [];
      BsdFrame(core, k, g, env);
      assert front + d.prims + back == front + d.prims;
    case Msdos(cylinderAlign) =>
      var initEnd, finalStart := InitEnd(d, env), FinalStart(d, env, cylinderAlign);
      ExtClear(core, k, x, env);
      StartsOn(core, k, x, env);
      MsdosFrame(d, env, cylinderAlign);
      MetaBounds(d, env, cylinderAlign);
      AllocPrims(d, env);
      LastPlace(core, k, g, env);
      front, back := FrontMeta(initEnd), BackMeta(initEnd, finalStart, d.len);
  }

  lemma StartsOn(core: Disk, k: nat, x: Part, env: Env)
    requires Sound(core, env) && k < |core.prims| && x.kind == Normal && x.geom.start < core.len
    ensures var s := core.prims[k := x];
            forall i :: 0 <= i < |s| ==> (s[i].kind.Normal? || s[i].kind.Extended?) && s[i].geom.start < core.len
  {
    hide Sound, Ordered, Within;
    SoundList(core, env);
    var s := core.prims[k := x];
    forall i | 0 <= i < |s| ensures s[i].geom.start < core.len { if i != k { EntryIn(core, i, env); } }
  }

  lemma LastPlace(core: Disk, k: nat, g: Geom, env: Env)
    requires Sound(core, env) && k < |core.prims| && g.Valid()
    ensures var s := core.prims[k := core.prims[k].(geom := g)]; s[|s| - 1].geom.end >= 0
  {
    EntryValid(core.prims, |core.prims| - 1);
  }

  lemma BsdFrame(core: Disk, k: nat, g: Geom, env: Env)
    requires Sound(core, env) && env.Valid() && env.scheme.Bsd? && k < |core.prims| && g.Valid() && (k > 0 || g.start >= 1)
    ensures var d := SetPart(core, Prim(k), core.prims[k].(geom := g));
            AllocMeta(d, env) == Allocated(d.(prims := [Placeholder(Meta, 0, 0)] + d.prims)) && core.prims[0].geom.start >= 1
  {
    hide ExtIndex, PrimNums, LogNums, Actives, Insert;
    var x := core.prims[k].(geom := g);
    var d := SetPart(core, Prim(k), x);
    SoundUsable(core, env);
    SetPartExt(core, Prim(k), x);
    assert d.prims[0].geom.start > 0;
    InsertFront(d.prims, Placeholder(Meta, 0, 0));
  }

  /** Nothing tiles once the partition was left behind the end of the device, or on the
      first sector of a bsd one. */
  lemma NeverTiles(core: Disk, k: nat, g: Geom, env: Env, t: seq<Part>)
    requires Sound(core, env) && k < |core.prims| && g.Valid() && Actives(t) == core.prims[k := core.prims[k].(geom := g)]
    requires g.start >= core.len || (k == 0 && g.start == 0 && t != [] && t[0] == core.prims[0].(geom := g))
    ensures !Tiles(Restore(FillFree(t, -1, core.len - 1, Free), k, core.prims[k].geom), 0, core.len - 1)
    ensures !TakenAsIs(core.prims, k, g, core.len)
  {
    hide Tiles, Restore, FillFree, Actives, Ordered, Sound;
    SoundList(core, env);
    EntryIn(core, k, env);
    var s, was := core.prims, core.prims[k].geom;
    var a, b;
    if g.start >= core.len {
      a, b := SplitActive(t, k);
    } else {
      a, b := [], t[1..];
      assert t == a + ([t[0]] + b);
      NoActives();
    }
    if Tiles(Restore(FillFree(t, -1, core.len - 1, Free), k, was), 0, core.len - 1) {
      PutBackStart(a, s[k].(geom := g), b, core.len - 1, was);
    }
  }

  lemma NoActives()
    ensures Actives([]) == []
  {
  }

  lemma EntryIn(core: Disk, k: nat, env: Env)
    requires Sound(core, env) && k < |core.prims|
    ensures 1 <= core.prims[k].geom.start <= core.prims[k].geom.end < core.len && core.prims[k].kind.Active()
  {
    hide PrimNums, LogNums, Actives;
    EntryValid(core.prims, k);
  }

  /** The primary list that a refusal leaves tiles the device exactly when the region left
      behind was taken for the old one. */
  lemma RefusedTiling(core: Disk, k: nat, g: Geom, env: Env)
    requires Sound(core, env) && env.Valid() && core.mode == 1 && k < |core.prims| && core.prims[k].kind == Normal && g.Valid()
    ensures var was, r := core.prims[k].geom, Pop(SetPart(core, Prim(k), core.prims[k].(geom := g)), env);
            && r.Ret?
            && (Tiles(RestoreAt(r.value, Prim(k), was).prims, 0, core.len - 1) <==> TakenAsIs(core.prims, k, g, core.len))
  {
    hide Sound, Tiles, Restore, FillFree, Actives, Pop, AllocMeta, TakenAsIs, ExtIndex, Ordered, Within, AllActive;
    var x := core.prims[k].(geom := g);
    var d := SetPart(core, Prim(k), x);
    NormalStays(core, k, g, env);
    MovedActive(core, Prim(k), x, env);
    PopPrims(d, env);
    var t := AllocMeta(d, env).disk.prims;
    SoundList(core, env);
    if g.start >= core.len {
      NeverTiles(core, k, g, env, t);
    } else if env.scheme.Bsd? && k == 0 && g.start == 0 {
      BsdOnZero(core, g, env);
      NeverTiles(core, k, g, env, t);
    } else {
      var front, back := LabelFrame(core, k, g, env);
      FramedTiling(core.prims, k, g, front, back, core.len);
    }
  }

  lemma NormalStays(core: Disk, k: nat, g: Geom, env: Env)
    requires Sound(core, env) && env.Valid() && core.mode == 1 && k < |core.prims| && core.prims[k].kind == Normal && g.Valid()
    ensures Handle(core, Prim(k)) && Pop(SetPart(core, Prim(k), core.prims[k].(geom := g)), env).Ret?
  {
    hide Sound, Pop;
    PopAborts(core, Prim(k), g, env);
  }

  /** On a bsd label a partition on sector 0 comes in front of the label's own sector. */
  lemma BsdOnZero(core: Disk, g: Geom, env: Env)
    requires Sound(core, env) && env.Valid() && env.scheme.Bsd? && core.prims != [] && g.Valid() && g.start == 0
    requires !AllocMeta(SetPart(core, Prim(0), core.prims[0].(geom := g)), env).AssertFails?
    ensures var t := AllocMeta(SetPart(core, Prim(0), core.prims[0].(geom := g)), env).disk.prims;
            t != [] && t[0] == core.prims[0].(geom := g)
  {
    hide ExtIndex, PrimNums, LogNums, Actives, Insert;
    var s := core.prims[0 := core.prims[0].(geom := g)];
    InsertEntries(s, Placeholder(Meta, 0, 0));
    assert InsertPoint(s, 0) > 0;
  }

  // ---- the logical partitions do not notice -------------------------------------------------------------------

  /** The same logical partitions in the same extended partition. */
  predicate SameInside(d: Disk, d1: Disk) {
    HasExt(d) && HasExt(d1) && ExtPart(d) == ExtPart(d1) && d.logs == d1.logs && d.len == d1.len
  }

  lemma MetaSame(d: Disk, d1: Disk, start: int, end: int)
    requires SameInside(d, d1)
    ensures var r, r1 := AddMetaThen(d, LogicalMeta, start, end), AddMetaThen(d1, LogicalMeta, start, end);
            r.Allocated? == r1.Allocated? && SameInside(r.disk, r1.disk)
  {
    hide Insert, ExtIndex;
  }

  lemma {:induction false} LogMetasSame(d: Disk, d1: Disk, env: Env, i: int)
    requires env.Valid() && SameInside(d, d1)
    ensures var r, r1 := AddLogMetas(d, env, i), AddLogMetas(d1, env, i);
            && r.AssertFails? == r1.AssertFails? && r.Allocated? == r1.Allocated?
            && (!r.AssertFails? ==> SameInside(r.disk, r1.disk))
    decreases MAX_TOTAL_PART + 1 - i
  {
    hide AddMetaThen, ExtIndex;
    var k := NumIndex(d.logs, i);
    if k >= 0 && i <= MAX_TOTAL_PART {
      var bios := env.probe(ExtPart(d));
      MetaSame(d, d1, LogMetaStart(d, bios, k), d.logs[k].geom.start - 1);
      var r, r1 := AddLogMeta(d, bios, k), AddLogMeta(d1, bios, k);
      if r.Allocated? { LogMetasSame(r.disk, r1.disk, env, i + 1); }
    }
  }

  lemma AllocSame(d: Disk, d1: Disk, env: Env)
    requires env.Valid() && env.scheme.Msdos? && !AllocMeta(d, env).AssertFails? && !AllocMeta(d1, env).AssertFails?
    requires var r, r1 := AddStartEnd(d, env, env.scheme.cylinderAlign), AddStartEnd(d1, env, env.scheme.cylinderAlign);
             r.Allocated? && r1.Allocated? && SameInside(r.disk, r1.disk)
    ensures SameInside(AllocMeta(d, env).disk, AllocMeta(d1, env).disk)
  {
    hide AddStartEnd, AddLogMetas, AddMetaThen, ExtIndex;
    var r, r1 := AddStartEnd(d, env, env.scheme.cylinderAlign).disk, AddStartEnd(d1, env, env.scheme.cylinderAlign).disk;
    LogMetasSame(r, r1, env, 5);
    var t, t1 := AddLogMetas(r, env, 5), AddLogMetas(r1, env, 5);
    if t.Allocated? { MetaSame(t.disk, t1.disk, ExtPart(t.disk).geom.start, ExtTableEnd(t.disk, env)); }
  }

  /** The logical list is the one that leaving update mode gives anyway. */
  lemma LogsUnmoved(core: Disk, k: nat, g: Geom, env: Env)
    requires Sound(core, env) && env.Valid() && core.mode == 1 && env.scheme.Msdos? && HasExt(core)
    requires k < |core.prims| && core.prims[k].kind == Normal && g.Valid() && g.start < core.len
    ensures var r := Pop(SetPart(core, Prim(k), core.prims[k].(geom := g)), env);
            r.Ret? && Pop(core, env).Ret? && r.value.logs == Pop(core, env).value.logs
  {
    hide Sound, AllocMeta, AddStartEnd, ExtIndex, FillFree, DropFree, AllActive;
    var x := core.prims[k].(geom := g);
    var d := SetPart(core, Prim(k), x);
    NormalStays(core, k, g, env);
    PopComplete(core, env);
    MovedActive(core, Prim(k), x, env);
    CoreActive(core, env);
    SetPartExt(core, Prim(k), x);
    ExtUnmoved(core, k, x);
    StartEndKeeps(core, env, env.scheme.cylinderAlign);
    StartEndKeeps(d, env, env.scheme.cylinderAlign);
    StartEndAllocates(core, env);
    ExtClear(core, k, x, env);
    StartsOn(core, k, x, env);
    SoundList(core, env);
    MsdosFrame(d, env, env.scheme.cylinderAlign);
    AllocSame(core, d, env);
  }

  lemma CoreActive(core: Disk, env: Env)
    requires Sound(core, env)
    ensures AllActive(core.prims) && AllActive(core.logs) && (!HasExt(core) ==> core.logs == [])
  {
  }

  lemma ExtUnmoved(core: Disk, k: nat, x: Part)
    requires HasExt(core) && k < |core.prims| && core.prims[k].kind == Normal && x.kind == Normal
    ensures HasExt(SetPart(core, Prim(k), x)) && ExtPart(SetPart(core, Prim(k), x)) == ExtPart(core)
  {
    SetPartExt(core, Prim(k), x);
  }
}
