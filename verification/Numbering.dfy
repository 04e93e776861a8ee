/** Renumbering (libparted/disk.c:973-1009, libparted/labels/dos.c:2511-2556): a
    compact numbering is left alone, and removing a logical partition closes the
    hole it leaves. */
module Numbering {
  import opened CInt
  import opened PartList
  import opened Disk
  import opened DiskLayout

  // ---- places of active entries -------------------------------------------------------

  /** Where entry `k` of a list stands among the active ones. */
  function ActPos(s: seq<Part>, k: nat): nat
    requires k <= |s|
  {
    |Actives(s[..k])|
  }

  lemma ActPosFacts(s: seq<Part>, k: nat)
    requires k < |s| && s[k].kind.Active()
    ensures ActPos(s, k) < |Actives(s)| && Actives(s)[ActPos(s, k)] == s[k]
  {
    assert s == s[..k] + ([s[k]] + s[k + 1..]);
    ActivesConcat(s[..k], [s[k]] + s[k + 1..]);
    ActivesPrepend(s[k], s[k + 1..]);
  }

  lemma ActPosMono(s: seq<Part>, j: nat, k: nat)
    requires j < k <= |s| && s[j].kind.Active()
    ensures ActPos(s, j) < ActPos(s, k)
  {
    assert s[..k] == s[..j] + ([s[j]] + s[j + 1..k]);
    ActivesConcat(s[..j], [s[j]] + s[j + 1..k]);
    ActivesPrepend(s[j], s[j + 1..k]);
  }

  lemma {:induction false} ActIndex(s: seq<Part>, m: nat) returns (k: nat)
    requires m < |Actives(s)|
    ensures k < |s| && s[k].kind.Active() && s[k] == Actives(s)[m]
  {
    if s[0].kind.Active() && m == 0 {
      k := 0;
    } else {
      var j := ActIndex(s[1..], if s[0].kind.Active() then m - 1 else m);
      k := j + 1;
    }
  }

  // ---- numbers of the active entries are numbers of the list ----------------------------

  lemma PrimNumsLift(s: seq<Part>, max: int)
    requires PrimNums(Actives(s), max) && Blank(s)
    ensures PrimNums(s, max)
  {
    forall k | 0 <= k < |s| && s[k].kind.Active() ensures 1 <= s[k].num <= max {
      ActPosFacts(s, k);
    }
    forall j, k | 0 <= j < k < |s| && s[j].kind.Active() && s[k].kind.Active() ensures s[j].num != s[k].num {
      ActPosFacts(s, j);
      ActPosFacts(s, k);
      ActPosMono(s, j, k);
    }
  }

  lemma LogNumsLift(s: seq<Part>, n: int)
    requires LogNums(Actives(s), n) && Blank(s) && ActiveAreLogical(s)
    ensures LogNums(s, n)
  {
    forall k | 0 <= k < |s| && s[k].kind == Logical ensures 5 <= s[k].num <= 4 + n {
      ActPosFacts(s, k);
    }
    forall j, k | 0 <= j < k < |s| && s[j].kind == Logical && s[k].kind == Logical ensures s[j].num != s[k].num {
      ActPosFacts(s, j);
      ActPosFacts(s, k);
      ActPosMono(s, j, k);
    }
    forall m | 5 <= m <= 4 + n ensures NumIn(s, m) {
      assert NumIn(Actives(s), m);
      var i :| 0 <= i < |Actives(s)| && HasNum(Actives(s)[i], m);
      var k := ActIndex(s, i);
    }
  }

  // ---- renumbering one partition -----------------------------------------------------------

  /** The table a renumbering works on: `n` logical numbers, `max` primary ones. */
  ghost predicate CleanNums(d: Disk, env: Env, n: int) {
    && PrimNums(d.prims, MaxPrimaries(env)) && LogNums(d.logs, n)
    && 0 <= n <= MAX_TOTAL_PART - 4 && ActiveAreLogical(d.logs)
    && (env.scheme.Bsd? ==> d.logs == [])
    && (!HasExt(d) ==> d.logs == [])
  }

  /** The search finds the least number that is free. */
  lemma NextFreeIs(d: Disk, i: int, max: int, n: int)
    requires 0 <= i <= n <= max && !NumUsed(d, n)
    requires forall m :: i <= m < n ==> NumUsed(d, m)
    ensures NextFree(d, i, max) == n
  {
  }

  lemma StablePrim(d: Disk, env: Env, n: int, k: nat)
    requires CleanNums(d, env, n) && k < |d.prims| && d.prims[k].kind.Active()
    ensures EnumerateAt(d, env, Prim(k)) == (d, true)
  {
    assert d.prims[k := d.prims[k]] == d.prims;
  }

  lemma StableLog(d: Disk, env: Env, n: int, k: nat)
    requires CleanNums(d, env, n) && k < |d.logs| && d.logs[k].kind == Logical
    ensures EnumerateAt(d, env, Log(k)) == (d, true)
  {
    var p := d.logs[k];
    var c := d.(logs := d.logs[k := p.(num := UNNUMBERED)]);
    assert !NumUsed(c, p.num);
    forall m | 5 <= m < p.num ensures NumUsed(c, m) {
      assert NumIn(d.logs, m);
      var j :| 0 <= j < |d.logs| && HasNum(d.logs[j], m);
      assert c.logs[j] == d.logs[j];
    }
    NextFreeIs(c, 5, MAX_TOTAL_PART, p.num);
    assert d.logs[k := p] == d.logs;
  }

  lemma {:induction false} RenumberStable(d: Disk, env: Env, n: int, i: int, last: int)
    requires CleanNums(d, env, n) && i >= 1
    ensures Renumber(d, env, i, last) == (d, true)
    decreases last + 1 - i
  {
    hide PrimNums, LogNums, EnumerateAt;
    if i <= last {
      TraversalOk(d);
      var ref := FindNum(d, Traversal(d), i);
      if ref.Some? {
        TraversalMember(d, ref.value);
        StableAt(d, env, n, ref.value);
      }
      RenumberStable(d, env, n, i + 1, last);
    }
  }

  lemma StableAt(d: Disk, env: Env, n: int, ref: Ref)
    requires CleanNums(d, env, n) && RefOk(d, ref) && PartAt(d, ref).num >= 1
    ensures EnumerateAt(d, env, ref) == (d, true)
  {
    match ref
    case Prim(k) => StablePrim(d, env, n, k);
    case Log(k) => StableLog(d, env, n, k);
  }

  lemma {:induction false} NumberRestStable(d: Disk, env: Env, n: int, t: seq<Ref>)
    requires CleanNums(d, env, n) && forall i :: 0 <= i < |t| ==> RefOk(d, t[i])
    ensures NumberRest(d, env, t) == d
    decreases |t|
  {
    if t != [] {
      var p := PartAt(d, t[0]);
      assert !(p.kind.Active() && p.num == UNNUMBERED);
      NumberRestStable(d, env, n, t[1..]);
    }
  }

  /** A compact numbering is a fixed point of renumbering. */
  lemma EnumerateStable(d: Disk, env: Env, n: int)
    requires CleanNums(d, env, n)
    ensures EnumerateAll(d, env) == d
  {
    hide CleanNums, Renumber, NumberRest, Traversal;
    var last := Max(LastNum(d.prims), if HasExt(d) then LastNum(d.logs) else UNNUMBERED);
    RenumberStable(d, env, n, 1, last);
    TraversalOk(d);
    NumberRestStable(d, env, n, Traversal(d));
  }

  // ---- closing a hole ---------------------------------------------------------------------

  /** The numbers above `gone` and below `i` moved down by one. */
  function Shifted(s: seq<Part>, gone: int, i: int): (r: seq<Part>)
    ensures |r| == |s|
  {
    seq(|s|, j requires 0 <= j < |s| =>
      if gone < s[j].num < i then s[j].(num := s[j].num - 1) else s[j])
  }

  /** Logical partitions only, numbered 5..5+n with the number `gone` missing. */
  ghost predicate Holed(s: seq<Part>, n: int, gone: int) {
    && 5 <= gone <= 5 + n <= MAX_TOTAL_PART
    && (forall k :: 0 <= k < |s| ==> s[k].kind == Logical && 5 <= s[k].num <= 5 + n && s[k].num != gone)
    && (forall j, k | 0 <= j < k < |s| :: s[j].num != s[k].num)
    && (forall m :: 5 <= m <= 5 + n && m != gone ==> NumIn(s, m))
  }

  lemma RemoveLeavesHole(s: seq<Part>, n: int, k: nat)
    requires LogNums(s, n + 1) && 0 <= n <= MAX_TOTAL_PART - 5 && k < |s|
    requires forall i :: 0 <= i < |s| ==> s[i].kind == Logical
    ensures Holed(RemoveAt(s, k), n, s[k].num)
  {
    var r := RemoveAt(s, k);
    assert forall i :: 0 <= i < |r| ==> r[i] == s[if i < k then i else i + 1];
    forall m | 5 <= m <= 5 + n && m != s[k].num ensures NumIn(r, m) {
      assert NumIn(s, m);
      var j :| 0 <= j < |s| && HasNum(s[j], m);
      assert r[if j < k then j else j - 1] == s[j];
    }
  }

  /** In the half-shifted list the numbers below `i - 1` are taken, `i - 1` itself is
      free once the hole is passed, and number `i` sits where it was. */
  lemma ShiftedNums(s: seq<Part>, n: int, gone: int, i: int, m: int)
    requires Holed(s, n, gone) && 5 <= i
    ensures 5 <= m < i - 1 && m < 5 + n ==> NumIn(Shifted(s, gone, i), m)
    ensures m == i - 1 && i <= gone && 5 <= m ==> NumIn(Shifted(s, gone, i), m)
    ensures gone < i && m == i - 1 ==> !NumIn(Shifted(s, gone, i), m)
    ensures m == i && NumIn(Shifted(s, gone, i), m) ==> NumIn(s, m)
  {
    var r := Shifted(s, gone, i);
    if 5 <= m < i && m < 5 + n && !(m == i - 1 && gone < i) {
      var o := if m < gone then m else m + 1;
      assert NumIn(s, o);
      var j :| 0 <= j < |s| && HasNum(s[j], o);
      assert HasNum(r[j], m);
    }
  }

  /** A half-renumbered table: numbers below `i` are done. */
  ghost predicate Closing(d: Disk, env: Env, s: seq<Part>, n: int, gone: int, i: int) {
    && env.scheme.Msdos? && HasExt(d) && PrimNums(d.prims, DOS_N_PRI_PARTITIONS)
    && Holed(s, n, gone) && d.logs == Shifted(s, gone, i)
  }

  /** The number the search finds for the partition numbered `i`. */
  lemma CloseOne(d: Disk, env: Env, s: seq<Part>, n: int, gone: int, i: int, k: nat)
    requires Closing(d, env, s, n, gone, i) && 5 <= i && k < |s| && s[k].num == i
    ensures EnumerateAt(d, env, Log(k)) == (d.(logs := Shifted(s, gone, i + 1)), true)
  {
    var p := d.logs[k];
    var c := d.(logs := d.logs[k := p.(num := UNNUMBERED)]);
    var t := if i < gone then i else i - 1;
    assert !NumUsed(c, t) by {
      ShiftedNums(s, n, gone, i, t);
      assert !NumIn(d.prims, t);
    }
    forall m | 5 <= m < t ensures NumUsed(c, m) {
      ShiftedNums(s, n, gone, i, m);
      assert NumIn(d.logs, m);
      var j :| 0 <= j < |d.logs| && HasNum(d.logs[j], m);
      assert c.logs[j] == d.logs[j];
    }
    NextFreeIs(c, 5, MAX_TOTAL_PART, t);
    ShiftOne(s, gone, i, k, t);
  }

  lemma ShiftOne(s: seq<Part>, gone: int, i: int, k: nat, t: int)
    requires k < |s| && s[k].num == i && t == (if i < gone then i else i - 1) && i != gone
    requires forall j :: 0 <= j < |s| && s[j].num == i ==> j == k
    ensures var c := Shifted(s, gone, i);
            c[k := c[k].(num := t)] == Shifted(s, gone, i + 1) && c[k].num == i
  {
    var c, r := Shifted(s, gone, i), Shifted(s, gone, i + 1);
    assert forall j :: 0 <= j < |s| && j != k ==> c[j] == r[j];
  }

  /** When no partition has number `i`, moving past `i` changes nothing. */
  lemma ShiftNone(s: seq<Part>, gone: int, i: int)
    requires i <= gone || forall j :: 0 <= j < |s| ==> s[j].num != i
    ensures Shifted(s, gone, i + 1) == Shifted(s, gone, i)
  {
    assert forall j :: 0 <= j < |s| ==> Shifted(s, gone, i + 1)[j] == Shifted(s, gone, i)[j];
  }

  lemma CloseStep(d: Disk, env: Env, s: seq<Part>, n: int, gone: int, i: int)
    requires Closing(d, env, s, n, gone, i) && 1 <= i
    ensures (forall r :: r in Traversal(d) ==> RefOk(d, r))
    ensures var ref := FindNum(d, Traversal(d), i);
            var d' := d.(logs := Shifted(s, gone, i + 1));
            if ref.None? then d' == d else EnumerateAt(d, env, ref.value) == (d', true)
  {
    hide Traversal, EnumerateAt;
    TraversalOk(d);
    var ref := FindNum(d, Traversal(d), i);
    if ref.None? {
      forall j | 0 <= j < |s| ensures gone < i ==> s[j].num != i {
        TraversalVisitsAll(d, Log(j));
        assert !HasNum(PartAt(d, Log(j)), i);
      }
      ShiftNone(s, gone, i);
    } else {
      TraversalMember(d, ref.value);
      match ref.value
      case Prim(k) =>
        ShiftNone(s, gone, i);
        PrimKept(d, env, k, i);
      case Log(k) =>
        assert s[k].num == i;
        CloseOne(d, env, s, n, gone, i, k);
    }
  }

  lemma PrimKept(d: Disk, env: Env, k: nat, i: int)
    requires env.scheme.Msdos? && k < |d.prims| && d.prims[k].num == i && 1 <= i <= DOS_N_PRI_PARTITIONS
    ensures EnumerateAt(d, env, Prim(k)) == (d, true)
  {
    assert d.prims[k := d.prims[k]] == d.prims;
  }

  lemma {:induction false} CloseHole(d: Disk, env: Env, s: seq<Part>, n: int, gone: int, i: int, last: int)
    requires Closing(d, env, s, n, gone, i) && 1 <= i <= last + 1
    ensures Renumber(d, env, i, last) == (d.(logs := Shifted(s, gone, last + 1)), true)
    decreases last + 1 - i
  {
    hide Traversal, EnumerateAt, Shifted, Holed;
    if i <= last {
      CloseStep(d, env, s, n, gone, i);
      CloseHole(d.(logs := Shifted(s, gone, i + 1)), env, s, n, gone, i + 1, last);
    }
  }

  /** Closing the hole gives a compact numbering again. */
  lemma ClosedNums(s: seq<Part>, n: int, gone: int, i: int)
    requires Holed(s, n, gone) && (forall j :: 0 <= j < |s| ==> s[j].num < i)
    ensures LogNums(Shifted(s, gone, i), n)
    ensures ActiveAreLogical(Shifted(s, gone, i))
    ensures forall j, k :: 0 <= j < |s| && 0 <= k < |s| ==>
              (s[j].num < s[k].num <==> Shifted(s, gone, i)[j].num < Shifted(s, gone, i)[k].num)
  {
    var r := Shifted(s, gone, i);
    forall m | 5 <= m <= 4 + n ensures NumIn(r, m) {
      var o := if m < gone then m else m + 1;
      assert NumIn(s, o);
      var j :| 0 <= j < |s| && HasNum(s[j], o);
      assert HasNum(r[j], m);
    }
  }

  /** Only numbers below `i` are shifted, so a larger bound than all of them changes nothing. */
  lemma ShiftedAgree(s: seq<Part>, gone: int, i: int, i': int)
    requires forall j :: 0 <= j < |s| ==> s[j].num <= gone || (s[j].num < i <==> s[j].num < i')
    ensures Shifted(s, gone, i) == Shifted(s, gone, i')
  {
    assert forall j :: 0 <= j < |s| ==> Shifted(s, gone, i)[j] == Shifted(s, gone, i')[j];
  }

  lemma ShiftedId(s: seq<Part>, gone: int)
    requires forall j :: 0 <= j < |s| ==> s[j].num >= 1
    ensures Shifted(s, gone, 1) == s
  {
    assert forall j :: 0 <= j < |s| ==> Shifted(s, gone, 1)[j] == s[j];
  }

  lemma RestStays(d: Disk, env: Env, n: int)
    requires env.scheme.Msdos? && HasExt(d) && PrimNums(d.prims, DOS_N_PRI_PARTITIONS)
    requires LogNums(d.logs, n) && ActiveAreLogical(d.logs) && 0 <= n <= MAX_TOTAL_PART - 4
    ensures forall i :: 0 <= i < |Traversal(d)| ==> RefOk(d, Traversal(d)[i])
    ensures NumberRest(d, env, Traversal(d)) == d
  {
    hide NumberRest;
    assert CleanNums(d, env, n);
    TraversalOk(d);
    NumberRestStable(d, env, n, Traversal(d));
  }

  /** Renumbering after a logical partition was taken out: the numbers above it
      move down by one and everything else stays. */
  lemma EnumerateCloses(d: Disk, env: Env, n: int, gone: int)
    requires env.scheme.Msdos? && HasExt(d) && PrimNums(d.prims, DOS_N_PRI_PARTITIONS)
    requires Holed(d.logs, n, gone)
    ensures var r := Shifted(d.logs, gone, MAX_TOTAL_PART + 1);
            EnumerateAll(d, env) == d.(logs := r) && LogNums(r, n)
  {
    hide Shifted, NumberRest, LogNums, PrimNums, Traversal, EnumerateAt;
    var s := d.logs;
    var last := Max(LastNum(d.prims), LastNum(s));
    ShiftedId(s, gone);
    CloseHole(d, env, s, n, gone, 1, Max(last, 0));
    ShiftedAgree(s, gone, Max(last, 0) + 1, MAX_TOTAL_PART + 1);
    ClosedNums(s, n, gone, MAX_TOTAL_PART + 1);
    RestStays(d.(logs := Shifted(s, gone, MAX_TOTAL_PART + 1)), env, n);
  }
}
