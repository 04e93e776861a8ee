/** Numbering and the choice between the AHDI, XGM and ICD table formats of Atari
    labels (libparted/labels/atari.c): what the numbers and the format keep in
    every run of reads, adds, deletes and writes. */
module Atari {

  datatype Kind = Normal | Logical | Extended

  /** An active partition; which one comes first in the list plays no part here. */
  datatype AtrPart = AtrPart(kind: Kind, num: int)

  type Parts = seq<AtrPart>

  /** AHDI v1; AHDI v3 with an extended ("XGM") partition; ICD with more than four
      primary partitions. */
  datatype Format = Ahdi | Xgm | Icd

  const N_AHDI := 4
  const N_ICD := 8
  const MAXIMUM_PARTS := 64
  const UNNUMBERED := -1

  // ---- the list ---------------------------------------------------------------------------------

  /** `ped_disk_get_partition`: the index of the partition with a number, or -1. */
  function Find(s: Parts, n: int): (k: int)
    ensures -1 <= k < |s|
    ensures k >= 0 ==> s[k].num == n
    ensures k < 0 ==> forall i :: 0 <= i < |s| ==> s[i].num != n
  {
    if s == [] then -1
    else if s[0].num == n then 0
    else
      var k := Find(s[1..], n);
      if k < 0 then -1 else k + 1
  }

  predicate Used(s: Parts, n: int) {
    exists i :: 0 <= i < |s| && s[i].num == n
  }

  /** `ped_disk_get_last_partition_num` */
  function LastNum(s: Parts): (n: int)
    ensures n >= -1 && forall i :: 0 <= i < |s| ==> s[i].num <= n
    ensures n > -1 ==> Used(s, n)
  {
    if s == [] then -1
    else
      var m := LastNum(s[1..]);
      assert m > -1 ==> exists i :: 0 <= i < |s[1..]| && s[1..][i].num == m;
      assert m > -1 ==> exists i :: 1 <= i < |s| && s[i].num == m by {
        if i :| 0 <= i < |s[1..]| && s[1..][i].num == m { assert s[i + 1].num == m; }
      }
      if s[0].num > m then assert s[0].num == s[0].num; s[0].num else m
  }

  function Count(s: Parts, q: AtrPart -> bool): nat {
    if s == [] then 0 else (if q(s[0]) then 1 else 0) + Count(s[1..], q)
  }

  predicate Primary(p: AtrPart) {
    p.kind != Logical
  }

  /** `ped_disk_get_primary_partition_count` */
  function Prims(s: Parts): nat {
    Count(s, Primary)
  }

  predicate HasExt(s: Parts) {
    exists i :: 0 <= i < |s| && s[i].kind == Extended
  }

  /** 1 when the extended partition comes first, as its logical partition has number 1. */
  function XgmBegin(s: Parts): int {
    var k := Find(s, 1);
    if k >= 0 && s[k].kind == Logical then 1 else 0
  }

  // ---- counting ---------------------------------------------------------------------------------

  lemma {:induction false} CountConcat(s: Parts, t: Parts, q: AtrPart -> bool)
    ensures Count(s + t, q) == Count(s, q) + Count(t, q)
  {
    if s == [] {
      assert s + t == t;
    } else {
      assert (s + t)[0] == s[0] && (s + t)[1..] == s[1..] + t;
      CountConcat(s[1..], t, q);
    }
  }

  lemma {:induction false} CountSame(s: Parts, t: Parts, q: AtrPart -> bool, r: AtrPart -> bool)
    requires |s| == |t| && forall i :: 0 <= i < |s| ==> q(s[i]) == r(t[i])
    ensures Count(s, q) == Count(t, r)
  {
    if s != [] { CountSame(s[1..], t[1..], q, r); }
  }

  lemma CountSplit(s: Parts, k: nat, q: AtrPart -> bool)
    requires k < |s|
    ensures Count(s, q) == Count(s[..k] + s[k + 1..], q) + (if q(s[k]) then 1 else 0)
  {
    assert s == s[..k] + ([s[k]] + s[k + 1..]);
    CountConcat(s[..k], [s[k]] + s[k + 1..], q);
    CountConcat([s[k]], s[k + 1..], q);
    CountConcat(s[..k], s[k + 1..], q);
    assert Count([s[k]], q) == if q(s[k]) then 1 else 0 by { assert [s[k]][1..] == []; }
  }

  /** Two conditions that differ on one partition only. */
  lemma CountDiffers(s: Parts, k: nat, q: AtrPart -> bool, r: AtrPart -> bool)
    requires k < |s| && q(s[k]) && !r(s[k]) && forall i :: 0 <= i < |s| && i != k ==> q(s[i]) == r(s[i])
    ensures Count(s, q) == Count(s, r) + 1
  {
    CountSplit(s, k, q);
    CountSplit(s, k, r);
    var t := s[..k] + s[k + 1..];
    assert forall i :: 0 <= i < |t| ==> t[i] == s[if i < k then i else i + 1];
    CountSame(t, t, q, r);
  }

  lemma {:induction false} CountNone(s: Parts, q: AtrPart -> bool)
    ensures Count(s, q) == 0 <==> forall i :: 0 <= i < |s| ==> !q(s[i])
  {
    if s != [] {
      CountNone(s[1..], q);
      assert forall i :: 1 <= i < |s| ==> s[i] == s[1..][i - 1];
    }
  }

  // ---- what is kept -------------------------------------------------------------------------------

  predicate Ranged(p: AtrPart) {
    if p.kind == Extended then p.num == 0 else 1 <= p.num <= MAXIMUM_PARTS
  }

  /** The extended partition has number 0 and the others have distinct ones. */
  ghost predicate Numbered(s: Parts) {
    && (forall i :: 0 <= i < |s| ==> Ranged(s[i]))
    && (forall i, j :: 0 <= i < j < |s| ==> s[i].num != s[j].num)
  }

  ghost predicate HasLogical(s: Parts) {
    exists i :: 0 <= i < |s| && s[i].kind == Logical
  }

  /** No number below `n` is free. */
  ghost predicate FullBelow(s: Parts, n: int) {
    forall m :: 1 <= m < n ==> Used(s, m)
  }

  /** No number below a logical partition's is free, nor below any if there is none. */
  ghost predicate Packed(s: Parts) {
    forall i :: 0 <= i < |s| && (s[i].kind == Logical || !HasLogical(s)) ==> FullBelow(s, s[i].num)
  }

  /** The logical partitions have consecutive numbers. */
  ghost predicate Grouped(s: Parts) {
    forall i, j, k :: 0 <= i < |s| && 0 <= j < |s| && 0 <= k < |s| && s[i].kind == Logical && s[k].kind == Logical ==>
      s[i].num < s[j].num < s[k].num ==> s[j].kind == Logical
  }

  ghost predicate Tidy(s: Parts) {
    Numbered(s) && Packed(s) && Grouped(s) && (HasLogical(s) ==> HasExt(s))
  }

  predicate OneIsNormal(s: Parts) {
    var k := Find(s, 1);
    k >= 0 && s[k].kind == Normal
  }

  /** At most four primary partitions, and there is room for the extended one to come
      first. */
  predicate Roomy(s: Parts) {
    Prims(s) < N_AHDI || (Prims(s) == N_AHDI && (HasExt(s) ==> OneIsNormal(s)))
  }

  /** What the format promises while numbers change. */
  predicate Suits(f: Format, s: Parts) {
    match f
    case Icd => !HasExt(s)
    case Xgm => Roomy(s)
    case Ahdi => Roomy(s) && !HasExt(s)
  }

  /** The assertions at the start of `atari_partition_enumerate` and `atari_write`. */
  predicate Asserted(f: Format, s: Parts, begin: int) {
    && (f == Icd ==> !HasExt(s))
    && (f == Xgm ==> Prims(s) + begin <= N_AHDI)
    && (f == Ahdi ==> !HasExt(s) && Prims(s) + begin <= N_AHDI)
  }

  ghost predicate Inv(f: Format, s: Parts) {
    Tidy(s) && Suits(f, s) && Prims(s) <= N_AHDI + N_ICD
  }

  /** The kinds are the same. */
  ghost predicate SameKinds(s: Parts, t: Parts) {
    |s| == |t| && forall i :: 0 <= i < |s| ==> s[i].kind == t[i].kind
  }

  lemma KindsKeep(s: Parts, t: Parts)
    requires SameKinds(s, t)
    ensures Prims(s) == Prims(t) && (HasExt(s) <==> HasExt(t)) && (HasLogical(s) <==> HasLogical(t))
  {
    CountSame(s, t, Primary, Primary);
    if i :| 0 <= i < |s| && s[i].kind == Extended { assert t[i].kind == Extended; }
    if i :| 0 <= i < |t| && t[i].kind == Extended { assert s[i].kind == Extended; }
    if i :| 0 <= i < |s| && s[i].kind == Logical { assert t[i].kind == Logical; }
    if i :| 0 <= i < |t| && t[i].kind == Logical { assert s[i].kind == Logical; }
  }

  /** The assertions hold, for whatever counts as the extended partition being first. */
  lemma SuitsAsserted(f: Format, s: Parts, begin: int)
    requires Suits(f, s) && begin in {0, 1} && (begin == 1 ==> HasExt(s) && !OneIsNormal(s))
    ensures Asserted(f, s, begin)
  {
  }

  // ---- choosing the format --------------------------------------------------------------------------

  /** `xgm_begin` when a partition is numbered; a new logical one may become the first. */
  function BeginFor(s: Parts, kind: Kind, isNew: bool): int {
    if XgmBegin(s) == 1 || (isNew && kind == Logical && Find(s, 1) < 0) then 1 else 0
  }

  predicate WantIcd(s: Parts, kind: Kind, isNew: bool) {
    Prims(s) + BeginFor(s, kind, isNew) + (if isNew && kind != Logical then 1 else 0) > N_AHDI
  }

  predicate WantXgm(s: Parts, kind: Kind) {
    kind == Extended || HasExt(s)
  }

  function Wanted(s: Parts, kind: Kind, isNew: bool): Format {
    if WantXgm(s, kind) then Xgm else if WantIcd(s, kind, isNew) then Icd else Ahdi
  }

  predicate Conflict(s: Parts, kind: Kind, isNew: bool) {
    WantXgm(s, kind) && WantIcd(s, kind, isNew)
  }

  lemma BeginFacts(s: Parts, kind: Kind, isNew: bool)
    requires HasLogical(s) ==> HasExt(s)
    requires isNew && kind == Logical ==> HasExt(s)
    ensures BeginFor(s, kind, isNew) == 1 ==> HasExt(s) && !OneIsNormal(s)
  {
    var k := Find(s, 1);
    if k >= 0 && s[k].kind == Logical { assert HasLogical(s); }
  }

  /** A partition that has its number never conflicts, and the format it leads to suits. */
  lemma OldFits(f: Format, s: Parts, k: nat)
    requires Suits(f, s) && k < |s| && (HasLogical(s) ==> HasExt(s))
    ensures !Conflict(s, s[k].kind, false) && Suits(Wanted(s, s[k].kind, false), s)
  {
    BeginFacts(s, s[k].kind, false);
    if s[k].kind == Extended { assert HasExt(s); }
  }

  /** The format chosen for a new partition suits the table without it. */
  lemma NewSuits(f: Format, s: Parts, kind: Kind)
    requires Suits(f, s) && (HasLogical(s) ==> HasExt(s)) && (kind == Logical ==> HasExt(s)) && !Conflict(s, kind, true)
    ensures Suits(Wanted(s, kind, true), s)
  {
    BeginFacts(s, kind, true);
  }

  lemma PrimsAppend(s: Parts, p: AtrPart)
    ensures Prims(s + [p]) == Prims(s) + (if p.kind != Logical then 1 else 0)
    ensures HasExt(s + [p]) <==> HasExt(s) || p.kind == Extended
    ensures HasLogical(s + [p]) <==> HasLogical(s) || p.kind == Logical
    ensures forall i :: 0 <= i < |s| ==> (s + [p])[i] == s[i]
    ensures (s + [p])[|s|] == p
  {
    CountConcat(s, [p], Primary);
    assert [p][1..] == [];
    var t := s + [p];
    if i :| 0 <= i < |t| && t[i].kind == Extended { if i < |s| { assert s[i].kind == Extended; } }
    if i :| 0 <= i < |s| && s[i].kind == Extended { assert t[i].kind == Extended; }
    if p.kind == Extended { assert t[|s|].kind == Extended; }
    if i :| 0 <= i < |t| && t[i].kind == Logical { if i < |s| { assert s[i].kind == Logical; } }
    if i :| 0 <= i < |s| && s[i].kind == Logical { assert t[i].kind == Logical; }
    if p.kind == Logical { assert t[|s|].kind == Logical; }
  }

  lemma FindIs(s: Parts, k: nat)
    requires Numbered(s) && k < |s|
    ensures Find(s, s[k].num) == k
  {
  }

  lemma UsedFind(s: Parts, n: int)
    ensures Used(s, n) <==> Find(s, n) >= 0
  {
    if Find(s, n) >= 0 { assert s[Find(s, n)].num == n; }
  }

  /** Number 1 after a partition was added at the first free number. */
  lemma OneAfterAdd(s: Parts, p: AtrPart)
    requires Numbered(s) && Numbered(s + [p]) && p.kind != Logical && XgmBegin(s) == 0
    requires Find(s, 1) < 0 ==> p == AtrPart(Normal, 1)
    ensures OneIsNormal(s + [p])
  {
    var t := s + [p];
    var k := Find(s, 1);
    if k < 0 { FindIs(t, |s|); } else { assert t[k] == s[k] && Ranged(s[k]); FindIs(t, k); }
  }

  lemma OnePacked(s: Parts)
    requires Numbered(s) && Packed(s) && !HasLogical(s) && Prims(s) > (if HasExt(s) then 1 else 0)
    ensures OneIsNormal(s)
  {
    hide Prims, Packed;
    var k := NormalExists(s);
    assert Ranged(s[k]);
    if s[k].num == 1 {
      FindIs(s, k);
    } else {
      assert FullBelow(s, s[k].num) by { PackedAt(s, k); }
      assert Used(s, 1);
      var j :| 0 <= j < |s| && s[j].num == 1;
      FindIs(s, j);
      assert Ranged(s[j]);
    }
  }

  lemma PackedAt(s: Parts, k: nat)
    requires Packed(s) && !HasLogical(s) && k < |s|
    ensures FullBelow(s, s[k].num)
  {
  }

  /** More primary partitions than the extended one: some normal one. */
  lemma NormalExists(s: Parts) returns (k: nat)
    requires Numbered(s) && !HasLogical(s) && Prims(s) > (if HasExt(s) then 1 else 0)
    ensures k < |s| && s[k].kind == Normal
  {
    if HasExt(s) {
      var e :| 0 <= e < |s| && s[e].kind == Extended;
      CountSplit(s, e, Primary);
      var t := s[..e] + s[e + 1..];
      CountNone(t, Primary);
      var i :| 0 <= i < |t| && Primary(t[i]);
      k := if i < e then i else i + 1;
      assert t[i] == s[k];
      assert Ranged(s[k]) && Ranged(s[e]);
    } else {
      CountNone(s, Primary);
      k :| 0 <= k < |s| && Primary(s[k]);
    }
  }

  /** The format chosen for a new partition suits the table with it. */
  lemma NewFits(f: Format, s: Parts, p: AtrPart)
    requires Tidy(s) && Suits(f, s) && p.kind != Logical && (p.kind == Extended ==> !HasExt(s)) && !Conflict(s, p.kind, true)
    requires Numbered(s + [p]) && (Find(s, 1) < 0 && p.kind == Normal ==> p.num == 1)
    ensures Suits(Wanted(s, p.kind, true), s + [p])
  {
    hide Prims, HasExt, HasLogical, Packed, Grouped, Numbered;
    PrimsAppend(s, p);
    if Wanted(s, p.kind, true) == Xgm && Prims(s + [p]) == N_AHDI {
      if p.kind == Extended {
        OnePacked(s);
        OneAfterAdd(s, p);
      } else {
        OneAfterAdd(s, p);
      }
    }
  }

  // ---- free numbers -----------------------------------------------------------------------------------

  /** The least free number from `i` to `max`, or `max + 1`. */
  function FirstFree(s: Parts, i: int, max: int): (n: int)
    requires 1 <= i <= max + 1
    ensures i <= n <= max + 1 && (forall m :: i <= m < n ==> Used(s, m)) && (n <= max ==> !Used(s, n))
    decreases max + 1 - i
  {
    UsedFind(s, i);
    if i > max || Find(s, i) < 0 then i else FirstFree(s, i + 1, max)
  }

  lemma FirstFreeIs(s: Parts, max: int, n: int)
    requires 1 <= n <= max + 1 && FullBelow(s, n) && (n <= max ==> !Used(s, n))
    ensures FirstFree(s, 1, max) == n
  {
  }

  /** The number of the last logical partition, or 0. */
  ghost predicate LastLogical(s: Parts, l: int) {
    && (forall i :: 0 <= i < |s| && s[i].kind == Logical ==> s[i].num <= l)
    && (if HasLogical(s) then exists i :: 0 <= i < |s| && s[i].kind == Logical && s[i].num == l else l == 0)
  }

  /** The normal partitions numbered above both `l` and `from` moved up by one. */
  function Raised(s: Parts, l: int, from: int): (t: Parts)
    ensures |t| == |s|
  {
    seq(|s|, i requires 0 <= i < |s| =>
      if s[i].kind == Normal && s[i].num > l && s[i].num > from then s[i].(num := s[i].num + 1) else s[i])
  }

  /** Moving up keeps the table tidy, and leaves the number after the last logical one free. */
  lemma RaisedTidy(s: Parts, l: int)
    requires Tidy(s) && LastLogical(s, l) && HasLogical(s) && LastNum(s) < MAXIMUM_PARTS
    ensures Tidy(Raised(s, l, l)) && SameKinds(s, Raised(s, l, l)) && LastLogical(Raised(s, l, l), l)
    ensures !Used(Raised(s, l, l), l + 1) && FullBelow(Raised(s, l, l), l + 1)
    ensures OneIsNormal(s) ==> OneIsNormal(Raised(s, l, l))
  {
    hide Prims, Packed, Grouped;
    var t := Raised(s, l, l);
    KindsKeep(s, t);
    RaisedNumbered(s, l);
    var k :| 0 <= k < |s| && s[k].kind == Logical && s[k].num == l;
    assert FullBelow(s, l) by { LogicalPacked(s, k); }
    RaisedBelow(s, l, k);
    RaisedPacked(s, l);
    RaisedGrouped(s, l);
    if OneIsNormal(s) { RaisedOne(s, l); }
  }

  lemma LogicalPacked(s: Parts, k: nat)
    requires Packed(s) && k < |s| && s[k].kind == Logical
    ensures FullBelow(s, s[k].num)
  {
  }

  lemma RaisedNumbered(s: Parts, l: int)
    requires Numbered(s) && LastLogical(s, l) && LastNum(s) < MAXIMUM_PARTS
    ensures Numbered(Raised(s, l, l)) && !Used(Raised(s, l, l), l + 1)
  {
    forall i | 0 <= i < |s| ensures Ranged(Raised(s, l, l)[i]) && Raised(s, l, l)[i].num != l + 1 {
      assert Ranged(s[i]) && s[i].num <= LastNum(s);
    }
  }

  lemma RaisedBelow(s: Parts, l: int, k: nat)
    requires Numbered(s) && FullBelow(s, l) && k < |s| && s[k].kind == Logical && s[k].num == l
    ensures FullBelow(Raised(s, l, l), l + 1)
  {
    var t := Raised(s, l, l);
    forall m | 1 <= m < l + 1 ensures Used(t, m) {
      assert Used(s, m);
      var i :| 0 <= i < |s| && s[i].num == m;
      assert t[i].num == m;
    }
  }

  lemma RaisedPacked(s: Parts, l: int)
    requires LastLogical(s, l) && HasLogical(s) && FullBelow(Raised(s, l, l), l + 1)
    ensures Packed(Raised(s, l, l))
  {
    var t := Raised(s, l, l);
    var k :| 0 <= k < |s| && s[k].kind == Logical;
    assert t[k].kind == Logical;
  }

  lemma RaisedEntries(s: Parts, l: int)
    ensures var t := Raised(s, l, l);
            && SameKinds(s, t)
            && (forall i :: 0 <= i < |s| && s[i].kind == Logical ==> t[i] == s[i])
            && (forall i :: 0 <= i < |s| && t[i].num <= l ==> t[i] == s[i])
  {
  }

  lemma RaisedGrouped(s: Parts, l: int)
    requires Grouped(s) && LastLogical(s, l)
    ensures Grouped(Raised(s, l, l)) && LastLogical(Raised(s, l, l), l)
  {
    hide HasLogical, Raised;
    var t := Raised(s, l, l);
    RaisedEntries(s, l);
    KindsKeep(s, t);
    GroupedAgain(s, t, l);
    if HasLogical(s) { RaisedLast(s, l); }
  }

  lemma GroupedAgain(s: Parts, t: Parts, l: int)
    requires Grouped(s) && SameKinds(s, t)
    requires forall i :: 0 <= i < |s| && s[i].kind == Logical ==> s[i].num <= l && t[i] == s[i]
    requires forall i :: 0 <= i < |s| && t[i].num <= l ==> t[i] == s[i]
    ensures Grouped(t)
  {
    hide Grouped;
    forall i, j, k | 0 <= i < |t| && 0 <= j < |t| && 0 <= k < |t| && t[i].kind == Logical && t[k].kind == Logical && t[i].num < t[j].num < t[k].num
      ensures t[j].kind == Logical
    {
      assert s[i].kind == Logical && s[k].kind == Logical;
      assert t[k].num <= l && t[j] == s[j];
      GroupedAt(s, i, j, k);
    }
    GroupedIf(t);
  }

  lemma GroupedAt(s: Parts, i: nat, j: nat, k: nat)
    requires Grouped(s) && i < |s| && j < |s| && k < |s| && s[i].kind == Logical && s[k].kind == Logical && s[i].num < s[j].num < s[k].num
    ensures s[j].kind == Logical
  {
  }

  lemma GroupedIf(s: Parts)
    requires forall i, j, k :: 0 <= i < |s| && 0 <= j < |s| && 0 <= k < |s| && s[i].kind == Logical && s[k].kind == Logical ==>
               s[i].num < s[j].num < s[k].num ==> s[j].kind == Logical
    ensures Grouped(s)
  {
  }

  lemma RaisedLast(s: Parts, l: int)
    requires LastLogical(s, l) && HasLogical(s)
    ensures exists i :: 0 <= i < |s| && Raised(s, l, l)[i].kind == Logical && Raised(s, l, l)[i].num == l
  {
    var k :| 0 <= k < |s| && s[k].kind == Logical && s[k].num == l;
    assert Raised(s, l, l)[k] == s[k];
  }

  lemma RaisedOne(s: Parts, l: int)
    requires Numbered(s) && OneIsNormal(s) && l >= 1 && Numbered(Raised(s, l, l))
    ensures OneIsNormal(Raised(s, l, l))
  {
    var k := Find(s, 1);
    assert Raised(s, l, l)[k] == s[k];
    FindIs(Raised(s, l, l), k);
  }

  // ---- adding to a tidy table ------------------------------------------------------------------------

  lemma AppendNumbered(s: Parts, p: AtrPart)
    requires Numbered(s) && Ranged(p) && !Used(s, p.num)
    ensures Numbered(s + [p])
  {
  }

  lemma UsedMore(s: Parts, p: AtrPart, n: int)
    requires FullBelow(s, n)
    ensures FullBelow(s + [p], n)
  {
    forall m | 1 <= m < n ensures Used(s + [p], m) {
      assert Used(s, m);
      var i :| 0 <= i < |s| && s[i].num == m;
      assert (s + [p])[i].num == m;
    }
  }

  lemma ExtUnused(s: Parts)
    requires Numbered(s) && !HasExt(s)
    ensures !Used(s, 0)
  {
    forall i | 0 <= i < |s| ensures s[i].num != 0 { assert Ranged(s[i]); }
  }

  /** A normal partition at the first free number. */
  lemma NormalTidy(s: Parts, n: int)
    requires Tidy(s) && 1 <= n <= MAXIMUM_PARTS && !Used(s, n) && FullBelow(s, n)
    ensures Tidy(s + [AtrPart(Normal, n)])
  {
    hide Used, FullBelow;
    var p := AtrPart(Normal, n);
    AppendNumbered(s, p);
    PrimsAppend(s, p);
    NormalPacked(s, n);
    NormalGrouped(s, n);
  }

  lemma NormalPacked(s: Parts, n: int)
    requires Packed(s) && FullBelow(s, n)
    ensures Packed(s + [AtrPart(Normal, n)])
  {
    hide Used, FullBelow, HasLogical;
    var p := AtrPart(Normal, n);
    var t := s + [p];
    PrimsAppend(s, p);
    forall i | 0 <= i < |t| && (t[i].kind == Logical || !HasLogical(t)) ensures FullBelow(t, t[i].num) {
      if i < |s| { assert FullBelow(s, s[i].num); }
      UsedMore(s, p, t[i].num);
    }
  }

  lemma NormalGrouped(s: Parts, n: int)
    requires Tidy(s) && !Used(s, n) && n >= 1
    ensures Grouped(s + [AtrPart(Normal, n)])
  {
    hide HasLogical, HasExt, Numbered;
    var t := s + [AtrPart(Normal, n)];
    forall i | 0 <= i < |s| && s[i].kind == Logical ensures s[i].num < n {
      LogicalPacked(s, i);
    }
    forall i, j, m | 0 <= i < |t| && 0 <= j < |t| && 0 <= m < |t| && t[i].kind == Logical && t[m].kind == Logical && t[i].num < t[j].num < t[m].num
      ensures t[j].kind == Logical
    {
      assert i < |s| && m < |s| && j < |s|;
    }
  }

  /** A logical partition after the last one. */
  lemma LogicalTidy(s: Parts, l: int)
    requires Tidy(s) && HasExt(s) && LastLogical(s, l) && HasLogical(s) && l < MAXIMUM_PARTS && !Used(s, l + 1) && FullBelow(s, l + 1)
    ensures Tidy(s + [AtrPart(Logical, l + 1)])
  {
    hide Used, Prims, FullBelow;
    var p := AtrPart(Logical, l + 1);
    var k :| 0 <= k < |s| && s[k].kind == Logical && s[k].num == l;
    assert Ranged(s[k]);
    AppendNumbered(s, p);
    PrimsAppend(s, p);
    LogicalStaysPacked(s, l + 1);
    LogicalGrouped(s, l, k);
  }

  lemma LogicalStaysPacked(s: Parts, n: int)
    requires Packed(s) && FullBelow(s, n)
    ensures Packed(s + [AtrPart(Logical, n)])
  {
    hide Used, FullBelow;
    var p := AtrPart(Logical, n);
    var t := s + [p];
    assert t[|s|].kind == Logical;
    forall i | 0 <= i < |t| && t[i].kind == Logical ensures FullBelow(t, t[i].num) {
      if i < |s| { assert FullBelow(s, s[i].num); }
      UsedMore(s, p, t[i].num);
    }
  }

  lemma LogicalGrouped(s: Parts, l: int, k: nat)
    requires Grouped(s) && Numbered(s) && LastLogical(s, l) && k < |s| && s[k].kind == Logical && s[k].num == l
    ensures Grouped(s + [AtrPart(Logical, l + 1)])
  {
    hide HasLogical;
    var t := s + [AtrPart(Logical, l + 1)];
    forall i, j, m | 0 <= i < |t| && 0 <= j < |t| && 0 <= m < |t| && t[i].kind == Logical && t[m].kind == Logical && t[i].num < t[j].num < t[m].num
      ensures t[j].kind == Logical
    {
      if j < |s| && s[j].num == l { assert j == k; }
    }
  }

  /** The first logical partition goes after all others. */
  lemma FirstLogicalTidy(s: Parts, n: int)
    requires Tidy(s) && HasExt(s) && !HasLogical(s) && 1 <= n <= MAXIMUM_PARTS && !Used(s, n) && FullBelow(s, n)
    ensures Tidy(s + [AtrPart(Logical, n)])
  {
    hide Used, Prims, FullBelow;
    var p := AtrPart(Logical, n);
    AppendNumbered(s, p);
    PrimsAppend(s, p);
    LogicalStaysPacked(s, n);
  }

  lemma ExtTidy(s: Parts)
    requires Tidy(s) && !HasExt(s)
    ensures Tidy(s + [AtrPart(Extended, 0)])
  {
    hide Used, Prims, FullBelow;
    var p := AtrPart(Extended, 0);
    ExtUnused(s);
    AppendNumbered(s, p);
    PrimsAppend(s, p);
    ExtPacked(s);
  }

  lemma ExtPacked(s: Parts)
    requires Packed(s)
    ensures Packed(s + [AtrPart(Extended, 0)])
  {
    hide Used, HasLogical;
    var p := AtrPart(Extended, 0);
    var t := s + [p];
    PrimsAppend(s, p);
    forall i | 0 <= i < |t| && (t[i].kind == Logical || !HasLogical(t)) ensures FullBelow(t, t[i].num) {
      if i < |s| { assert FullBelow(s, s[i].num); UsedMore(s, p, t[i].num); }
    }
  }
}
