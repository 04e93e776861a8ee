/** The Atari label as a state machine (libparted/labels/atari.c:577-714, 1018-1215,
    1668-1832 and the parts of libparted/disk.c that call it): reading, adding,
    deleting and writing partitions. */
module AtariTable {
  import opened Atari
  import opened AtariFill

  function RemoveAt(s: Parts, k: nat): Parts
    requires k < |s|
  {
    s[..k] + s[k + 1..]
  }

  lemma RemoveEntries(s: Parts, k: nat)
    requires k < |s|
    ensures var t := RemoveAt(s, k);
            |t| == |s| - 1 && (forall i :: 0 <= i < k ==> t[i] == s[i]) && (forall i :: k <= i < |t| ==> t[i] == s[i + 1])
    ensures forall i :: k < i < |s| ==> RemoveAt(s, k)[i - 1] == s[i]
  {
  }

  // ---- closing gaps ---------------------------------------------------------------------------------

  /** A smaller number stays smaller. */
  ghost predicate OrderKept(s: Parts, t: Parts)
    requires |s| == |t|
  {
    forall j, k :: 0 <= j < |s| && 0 <= k < |s| && 1 <= s[j].num < s[k].num ==> t[j].num < t[k].num
  }

  /** The numbers 1 to `i` of `s0` have become 1 to `c`, the others are as they were. */
  ghost predicate Squeezed(s0: Parts, s: Parts, i: int, c: int) {
    && SameKinds(s0, s) && 0 <= c <= i && Numbered(s) && FullBelow(s, c + 1)
    && (forall k :: 0 <= k < |s0| ==> if 1 <= s0[k].num <= i then 1 <= s[k].num <= c else s[k] == s0[k])
    && OrderKept(s0, s)
  }

  lemma SqueezeSkips(s0: Parts, s: Parts, i: int, c: int)
    requires Squeezed(s0, s, i, c) && Find(s, i + 1) < 0
    ensures Squeezed(s0, s, i + 1, c)
  {
    hide OrderKept, Numbered, FullBelow;
  }

  /** The least free number is the next one. */
  lemma SqueezeFree(s0: Parts, s: Parts, i: int, c: int)
    requires Squeezed(s0, s, i, c)
    ensures FirstFree(s, 1, i) == c + 1
  {
    hide OrderKept, FullBelow;
    if c + 1 <= i {
      forall k | 0 <= k < |s| ensures s[k].num != c + 1 { assert Ranged(s[k]); }
    }
    FirstFreeIs(s, i, c + 1);
  }

  lemma SqueezeStep(s0: Parts, s: Parts, i: int, c: int, k: nat)
    requires Squeezed(s0, s, i, c) && k < |s| && s[k].num == i + 1
    ensures Squeezed(s0, s[k := s[k].(num := c + 1)], i + 1, c + 1)
  {
    hide OrderKept;
    var t := s[k := s[k].(num := c + 1)];
    assert s0[k].num == i + 1;
    SqueezeNumbered(s0, s, i, c, k);
    SqueezeOrder(s0, s, i, c, k);
    forall m | 1 <= m < c + 2 ensures Used(t, m) {
      if m == c + 1 { assert t[k].num == m; } else {
        assert Used(s, m);
        var j :| 0 <= j < |s| && s[j].num == m;
        assert t[j].num == m;
      }
    }
  }

  lemma SqueezeNumbered(s0: Parts, s: Parts, i: int, c: int, k: nat)
    requires Squeezed(s0, s, i, c) && k < |s| && s[k].num == i + 1
    ensures Numbered(s[k := s[k].(num := c + 1)])
  {
    hide OrderKept, FullBelow;
    assert Ranged(s[k]);
    forall j | 0 <= j < |s| && j != k ensures s[j].num != c + 1 {
      assert Ranged(s[j]);
      if s0[j].num > i { assert s[j].num != s[k].num; }
    }
  }

  lemma SqueezeOrder(s0: Parts, s: Parts, i: int, c: int, k: nat)
    requires Squeezed(s0, s, i, c) && k < |s| && s[k].num == i + 1
    ensures OrderKept(s0, s[k := s[k].(num := c + 1)])
  {
    hide FullBelow;
    assert s0[k].num == i + 1;
  }

  /** All numbers from 1 on, up to the largest. */
  ghost predicate Compacted(s0: Parts, s: Parts) {
    SameKinds(s0, s) && Numbered(s) && OrderKept(s0, s) && FullBelow(s, LastNum(s) + 1)
  }

  lemma SqueezedAll(s0: Parts, s: Parts, last: int, c: int)
    requires Squeezed(s0, s, last, c) && Numbered(s0) && (forall k :: 0 <= k < |s0| ==> s0[k].num <= last)
    ensures Compacted(s0, s)
  {
    hide OrderKept, Numbered;
    forall k | 0 <= k < |s| ensures s[k].num <= c {
      if s0[k].num < 1 { assert s[k] == s0[k]; }
    }
  }

  /** Closing the gaps of what is left of a tidy table makes it tidy. */
  lemma CompactedTidy(s0: Parts, s: Parts)
    requires Compacted(s0, s) && Grouped(s0) && Numbered(s0) && (HasLogical(s0) ==> HasExt(s0))
    ensures Tidy(s)
  {
    hide Prims, OrderKept, Grouped, HasLogical, HasExt;
    KindsKeep(s0, s);
    CompactedGrouped(s0, s);
    CompactedPacked(s);
  }

  lemma CompactedPacked(s: Parts)
    requires FullBelow(s, LastNum(s) + 1)
    ensures Packed(s)
  {
    hide HasLogical, Used;
    forall i | 0 <= i < |s| ensures FullBelow(s, s[i].num) { assert s[i].num <= LastNum(s); }
  }

  lemma CompactedGrouped(s0: Parts, s: Parts)
    requires SameKinds(s0, s) && OrderKept(s0, s) && Grouped(s0) && Numbered(s0) && Numbered(s)
    ensures Grouped(s)
  {
    hide Grouped;
    forall i, j, k | 0 <= i < |s| && 0 <= j < |s| && 0 <= k < |s| && s[i].kind == Logical && s[k].kind == Logical && s[i].num < s[j].num < s[k].num
      ensures s[j].kind == Logical
    {
      Before(s0, s, i, j);
      Before(s0, s, j, k);
      GroupedAt(s0, i, j, k);
    }
    GroupedIf(s);
  }

  /** The order of the new numbers is that of the old ones. */
  lemma Before(s0: Parts, s: Parts, i: nat, j: nat)
    requires SameKinds(s0, s) && OrderKept(s0, s) && Numbered(s0) && Numbered(s) && i < |s| && j < |s|
    requires 1 <= s[i].num < s[j].num
    ensures s0[i].num < s0[j].num
  {
    assert Ranged(s0[i]) && Ranged(s0[j]) && Ranged(s[i]) && Ranged(s[j]);
    assert i != j;
    if i < j { assert s0[i].num != s0[j].num; } else { assert s0[j].num != s0[i].num; }
  }

  // ---- what removal and renumbering keep -----------------------------------------------------------

  lemma RemoveKeeps(s: Parts, k: nat)
    requires Tidy(s) && k < |s|
    ensures var t := RemoveAt(s, k); Numbered(t) && Grouped(t)
  {
    hide RemoveAt, Packed, HasLogical, HasExt, Grouped, Numbered;
    RemoveNumbered(s, k);
    RemoveGrouped(s, k);
  }

  function Origin(i: nat, k: nat): nat {
    if i < k then i else i + 1
  }

  lemma RemoveNumbered(s: Parts, k: nat)
    requires Numbered(s) && k < |s|
    ensures Numbered(RemoveAt(s, k))
  {
    hide RemoveAt;
    RemoveEntries(s, k);
    var t := RemoveAt(s, k);
    forall i | 0 <= i < |t| ensures Ranged(t[i]) { assert t[i] == s[Origin(i, k)]; }
    forall i, j | 0 <= i < j < |t| ensures t[i].num != t[j].num {
      assert t[i] == s[Origin(i, k)] && t[j] == s[Origin(j, k)] && Origin(i, k) < Origin(j, k);
    }
  }

  lemma RemoveGrouped(s: Parts, k: nat)
    requires Grouped(s) && k < |s|
    ensures Grouped(RemoveAt(s, k))
  {
    hide RemoveAt, Grouped;
    RemoveEntries(s, k);
    var t := RemoveAt(s, k);
    forall i, j, m | 0 <= i < |t| && 0 <= j < |t| && 0 <= m < |t| && t[i].kind == Logical && t[m].kind == Logical && t[i].num < t[j].num < t[m].num
      ensures t[j].kind == Logical
    {
      assert t[i] == s[Origin(i, k)] && t[j] == s[Origin(j, k)] && t[m] == s[Origin(m, k)];
      GroupedAt(s, Origin(i, k), Origin(j, k), Origin(m, k));
    }
    GroupedIf(t);
  }

  lemma RemoveCounts(s: Parts, k: nat)
    requires k < |s| && Numbered(s)
    ensures var t := RemoveAt(s, k);
            && Prims(t) == Prims(s) - (if s[k].kind != Logical then 1 else 0)
            && (HasExt(t) <==> HasExt(s) && s[k].kind != Extended)
            && (HasLogical(t) ==> HasLogical(s))
            && (s[k].kind != Logical ==> (HasLogical(t) <==> HasLogical(s)))
  {
    hide RemoveAt;
    var t := RemoveAt(s, k);
    RemoveEntries(s, k);
    assert t == s[..k] + s[k + 1..];
    CountSplit(s, k, Primary);
    if i :| 0 <= i < |t| && t[i].kind == Extended {
      var j := if i < k then i else i + 1;
      assert s[j].kind == Extended && Ranged(s[j]) && Ranged(s[k]);
    }
    if i :| 0 <= i < |s| && s[i].kind == Extended {
      if i != k { assert t[if i < k then i else i - 1].kind == Extended; }
    }
    if i :| 0 <= i < |t| && t[i].kind == Logical { assert s[if i < k then i else i + 1].kind == Logical; }
    if i :| 0 <= i < |s| && s[i].kind == Logical {
      if i != k { assert t[if i < k then i else i - 1].kind == Logical; }
    }
  }

  lemma RemoveSuits(f: Format, s: Parts, k: nat)
    requires Tidy(s) && Suits(f, s) && k < |s|
    ensures Suits(f, RemoveAt(s, k))
  {
    hide Prims, HasExt, Packed, Grouped, HasLogical, RemoveAt;
    RemoveCounts(s, k);
    RemoveKeeps(s, k);
    var t := RemoveAt(s, k);
    if f == Xgm && Prims(t) == N_AHDI && HasExt(t) {
      var o := Find(s, 1);
      assert s[o].kind == Normal && o != k;
      RemoveEntries(s, k);
      FindIs(t, if o < k then o else o - 1);
    }
  }

  lemma RenumberSuits(f: Format, s: Parts, k: nat, n: int)
    requires Numbered(s) && Suits(f, s) && k < |s| && s[k].num >= 1
    requires n == FirstFree(s, 1, s[k].num - 1) && Numbered(s[k := s[k].(num := n)])
    ensures Suits(f, s[k := s[k].(num := n)])
  {
    hide Prims, HasExt;
    var t := s[k := s[k].(num := n)];
    KindsKeep(s, t);
    if f != Icd && Prims(s) == N_AHDI && HasExt(s) {
      var o := Find(s, 1);
      assert s[o].num == 1;
      assert t[o] == s[o];
      FindIs(t, o);
    }
  }

  // ---- the table ----------------------------------------------------------------------------------

  class AtariDisk {
    var format: Format
    var parts: Parts

    ghost predicate Valid()
      reads this
    {
      Inv(format, parts)
    }

    /** `atr_disk_reset` on an empty table. */
    constructor ()
      ensures Valid() && format == Ahdi && parts == []
    {
      format, parts := Ahdi, [];
    }

    /** The first half of `atari_partition_enumerate`: its assertions hold, and it
        chooses the format or refuses. */
    method ChooseFormat(kind: Kind, isNew: bool) returns (ok: bool)
      requires Suits(format, parts) && (HasLogical(parts) ==> HasExt(parts)) && (isNew && kind == Logical ==> HasExt(parts))
      modifies this`format
      ensures ok == !Conflict(parts, kind, isNew)
      ensures format == if ok then Wanted(parts, kind, isNew) else old(format)
    {
      hide Count;
      var primCount, ext, begin := Prims(parts), HasExt(parts), BeginFor(parts, kind, isNew);
      BeginFacts(parts, kind, isNew);
      SuitsAsserted(format, parts, begin);
      assert format != Icd || !ext;
      assert format != Xgm || primCount + begin <= N_AHDI;
      assert format != Ahdi || (!ext && primCount + begin <= N_AHDI);
      var wantIcd := primCount + begin + (if isNew && kind != Logical then 1 else 0) > N_AHDI;
      var wantXgm := kind == Extended || ext;
      ok := true;
      if !wantXgm && !wantIcd { format := Ahdi; }
      else if wantXgm && !wantIcd { format := Xgm; }
      else if !wantXgm && wantIcd { format := Icd; }
      else { ok := false; }
    }

    /** `atari_partition_enumerate` on a partition that has a number. */
    method Renumber(k: nat)
      requires k < |parts| && parts[k].num >= 1 && Numbered(parts) && Suits(format, parts)
      requires HasLogical(parts) ==> HasExt(parts)
      requires Numbered(parts[k := parts[k].(num := FirstFree(parts, 1, parts[k].num - 1))])
      modifies this
      ensures parts == old(parts)[k := old(parts[k]).(num := FirstFree(old(parts), 1, old(parts[k].num) - 1))]
      ensures Suits(format, parts)
    {
      hide Count, Conflict, Wanted, HasLogical, HasExt, Suits, FirstFree;
      OldFits(format, parts, k);
      var ok := ChooseFormat(parts[k].kind, false);
      var n := FirstFree(parts, 1, parts[k].num - 1);
      RenumberSuits(format, parts, k, n);
      parts := parts[k := parts[k].(num := n)];
    }

    /** `ped_disk_enumerate_partitions` after a removal. */
    method EnumerateAll()
      requires Numbered(parts) && Suits(format, parts) && (HasLogical(parts) ==> HasExt(parts))
      modifies this
      ensures Compacted(old(parts), parts) && Suits(format, parts)
    {
      hide Suits, HasLogical, HasExt, Numbered, OrderKept, FirstFree, FullBelow, Find, LastNum;
      ghost var s0, c := parts, 0;
      var last := LastNum(parts);
      var i := 1;
      assert Squeezed(s0, parts, 0, 0) by { NothingSqueezed(s0); }
      while i <= last
        invariant 1 <= i && (i <= last + 1 || last < 0)
        invariant Squeezed(s0, parts, i - 1, c) && Suits(format, parts)
      {
        var k := Find(parts, i);
        if k >= 0 {
          KindsKeep(s0, parts);
          SqueezeFree(s0, parts, i - 1, c);
          SqueezeStep(s0, parts, i - 1, c, k);
          SqueezedNumbered(s0, parts, i - 1, c);
          SqueezedNumbered(s0, parts[k := parts[k].(num := c + 1)], i, c + 1);
          Renumber(k);
          c := c + 1;
        } else {
          SqueezeSkips(s0, parts, i - 1, c);
        }
        i := i + 1;
      }
      SqueezedAll(s0, parts, i - 1, c);
    }

    /** Removing one partition, as `ped_disk_delete_partition` does. */
    method DeleteOne(k: nat)
      requires Valid() && k < |parts| && (parts[k].kind == Extended ==> !HasLogical(parts))
      modifies this
      ensures Valid() && Compacted(RemoveAt(old(parts), k), parts)
    {
      hide Suits, HasLogical, HasExt, Numbered, Grouped, Packed, Prims, RemoveAt, OrderKept;
      RemoveKeeps(parts, k);
      RemoveCounts(parts, k);
      RemoveSuits(format, parts, k);
      ghost var s0 := RemoveAt(parts, k);
      parts := parts[..k] + parts[k + 1..];
      assert parts == s0 by { RemoveIs(old(parts), k); }
      EnumerateAll();
      CompactedTidy(s0, parts);
      KindsKeep(s0, parts);
    }

    /** Deleting in update mode: an extended partition takes its logical ones with it. */
    method Delete(k: nat)
      requires Valid() && k < |parts|
      modifies this
      ensures Valid()
      ensures old(parts[k].kind) != Extended ==> Compacted(RemoveAt(old(parts), k), parts)
      ensures old(parts[k].kind) == Extended ==>
                !HasExt(parts) && !HasLogical(parts) && Prims(parts) == old(Prims(parts)) - 1
    {
      hide Suits, HasLogical, Numbered, Grouped, Packed, Prims, RemoveAt, OrderKept, HasExt;
      if parts[k].kind != Extended {
        DeleteOne(k);
        return;
      }
      assert HasExt(parts) by { ExtThere(parts, k); }
      var l := FirstOf(parts, Logical);
      NoLogicalThere(parts);
      while l >= 0
        invariant -1 <= l < |parts| && (l >= 0 ==> parts[l].kind == Logical) && (l < 0 ==> !HasLogical(parts))
        invariant Valid() && HasExt(parts) && Prims(parts) == old(Prims(parts))
        decreases |parts|
      {
        ghost var s := parts;
        RemoveCounts(s, l);
        RemoveEntries(s, l);
        DeleteOne(l);
        KindsKeep(RemoveAt(s, l), parts);
        l := FirstOf(parts, Logical);
        NoLogicalThere(parts);
      }
      var e := FirstOf(parts, Extended);
      assert e >= 0 by { NoExtThere(parts); }
      ghost var s := parts;
      RemoveCounts(s, e);
      DeleteOne(e);
      KindsKeep(RemoveAt(s, e), parts);
    }

    /** The loop of `art_room_for_logic` that looks for the last logical partition. */
    method FindLastLogical() returns (l: int)
      requires Numbered(parts)
      ensures LastLogical(parts, l) && (l > 0 <==> HasLogical(parts)) && l >= 0
      ensures forall m :: LastLogical(parts, m) ==> m == l
    {
      var last := LastNum(parts);
      l := 0;
      var num := 1;
      while num <= last
        invariant 1 <= num && 0 <= l < num
        invariant l > 0 ==> Find(parts, l) >= 0 && parts[Find(parts, l)].kind == Logical
        invariant forall i :: 0 <= i < |parts| && parts[i].kind == Logical && parts[i].num < num ==> parts[i].num <= l
      {
        var k := Find(parts, num);
        OnlyAt(parts, num);
        if k >= 0 && parts[k].kind == Logical { l := num; }
        num := num + 1;
      }
      IsLastLogical(parts, l);
    }

    /** `art_room_for_logic`: move the normal partitions after the last logical one up. */
    method RoomForLogic() returns (ok: bool)
      requires Tidy(parts)
      modifies this`parts
      ensures ok == (old(LastNum(parts)) < MAXIMUM_PARTS)
      ensures !ok || !old(HasLogical(parts)) ==> parts == old(parts)
      ensures ok && old(HasLogical(parts)) ==> forall l :: LastLogical(old(parts), l) ==> parts == Raised(old(parts), l, l)
    {
      hide Packed, Grouped, HasExt, Numbered, Raised, LastLogical;
      var last := LastNum(parts);
      if last >= MAXIMUM_PARTS { return false; }
      var lastLogic := FindLastLogical();
      if lastLogic == 0 { return true; }
      ghost var s := parts;
      var num := last;
      NoneRaised(s, lastLogic, num);
      while num > lastLogic
        invariant parts == Raised(s, lastLogic, num)
      {
        var k := Find(parts, num);
        RaiseOne(s, lastLogic, num);
        if k >= 0 && parts[k].kind == Normal && parts[k].num > 0 {
          parts := parts[k := parts[k].(num := parts[k].num + 1)];
        }
        num := num - 1;
      }
      RaisedFloor(s, lastLogic, num);
      return true;
    }

    /** Entering update mode deletes the placeholders, and every deletion closes the gaps
        between the numbers. */
    method EnterUpdateMode()
      requires Valid()
      modifies this
      ensures Valid() && Compacted(old(parts), parts)
    {
      hide Suits, HasLogical, HasExt, Numbered, Grouped, Packed, Prims, OrderKept;
      EnumerateAll();
      CompactedTidy(old(parts), parts);
      KindsKeep(old(parts), parts);
    }

    /** `ped_disk_delete_partition` from outside update mode. */
    method DeletePartition(k: nat) returns (ghost packed: Parts)
      requires Valid() && k < |parts|
      modifies this
      ensures Valid() && Compacted(old(parts), packed) && |packed| == old(|parts|)
      ensures old(parts[k].kind) != Extended ==> Compacted(RemoveAt(packed, k), parts)
      ensures old(parts[k].kind) == Extended ==>
                !HasExt(parts) && !HasLogical(parts) && Prims(parts) == old(Prims(parts)) - 1
    {
      hide Suits, Tidy, Count, HasExt, HasLogical, OrderKept, Numbered, FullBelow, RemoveAt;
      EnterUpdateMode();
      packed := parts;
      KindsKeep(old(parts), packed);
      Delete(k);
    }

    /** The first checks of `ped_disk_add_partition`. */
    predicate Sane(kind: Kind)
      reads this
    {
      && (kind == Extended ==> !HasExt(parts) && format != Icd)
      && (kind == Logical ==> HasExt(parts))
      && (kind != Logical ==> Prims(parts) + 1 <= (if format == Xgm then N_AHDI else N_AHDI + N_ICD))
    }

    /** `ped_disk_add_partition` of a new partition from outside update mode: the gaps
        are closed before the number is chosen. */
    method AddPartition(kind: Kind, accepted: bool) returns (ok: bool, num: int, ghost packed: Parts)
      requires Valid()
      modifies this
      ensures Valid()
      ensures Compacted(old(parts), packed) || (!ok && parts == old(parts))
      ensures ok ==> accepted && Compacted(old(parts), packed) && format == Wanted(packed, kind, true)
      ensures ok ==> exists base :: MadeRoom(packed, kind, base) && NextNumber(base, kind, num) && parts == base + [AtrPart(kind, num)]
      ensures Prims(parts) == old(Prims(parts)) + (if ok && kind != Logical then 1 else 0)
      ensures HasExt(parts) <==> old(HasExt(parts)) || (ok && kind == Extended)
      ensures !ok ==> parts == old(parts) || parts == packed || MadeRoom(packed, kind, parts)
    {
      hide Suits, Tidy, Count, Wanted, MadeRoom, HasExt, HasLogical, OrderKept, Numbered, FullBelow, NextNumber;
      packed := parts;
      if !Sane(kind) { return false, UNNUMBERED, packed; }
      EnterUpdateMode();
      KindsKeep(packed, parts);
      packed := parts;
      ok, num := Add(kind, accepted);
    }

    /** An addition in update mode, as while a table is read: the checks, the second half
        of `atari_partition_enumerate`, and the rest, which may refuse the partition
        after its number was found; `accepted` says whether it does. */
    method Add(kind: Kind, accepted: bool) returns (ok: bool, num: int)
      requires Valid()
      modifies this
      ensures Valid()
      ensures ok ==> accepted && exists base :: MadeRoom(old(parts), kind, base) && NextNumber(base, kind, num)
                                                && parts == base + [AtrPart(kind, num)]
      ensures ok ==> format == Wanted(old(parts), kind, true)
      ensures Prims(parts) == old(Prims(parts)) + (if ok && kind != Logical then 1 else 0)
      ensures HasExt(parts) <==> old(HasExt(parts)) || (ok && kind == Extended)
      ensures ok && kind == Extended ==> !old(HasExt(parts))
      ensures !ok ==> parts == old(parts) || MadeRoom(old(parts), kind, parts)
    {
      hide Suits, Tidy, Count, Wanted, Conflict, MadeRoom, HasExt, HasLogical;
      ghost var s := parts;
      var ext, primCount := HasExt(parts), Prims(parts);
      TidyFacts(parts);
      if kind == Extended && (ext || format == Icd) { return false, UNNUMBERED; }
      if kind == Logical && !ext { return false, UNNUMBERED; }
      if kind != Logical && primCount + 1 > (if format == Xgm then N_AHDI else N_AHDI + N_ICD) { return false, UNNUMBERED; }
      var fine := ChooseFormat(kind, true);
      if !fine { return false, UNNUMBERED; }
      NewSuits(old(format), s, kind);
      var max := if format == Xgm then MAXIMUM_PARTS else N_AHDI + N_ICD;
      if kind == Logical {
        fine := RoomForLogic();
        if !fine { return false, UNNUMBERED; }
      }
      RoomMade(s, kind, parts, old(format));
      KindsKeep(s, parts);
      num := if kind == Extended then 0 else FirstFree(parts, 1, max);
      if num > max || !accepted { return false, num; }
      ghost var base := parts;
      NextIs(base, kind, max, num);
      NewTidy(s, kind, base, num);
      NewKeeps(old(format), s, kind, base, num);
      PrimsAppend(base, AtrPart(kind, num));
      parts := parts + [AtrPart(kind, num)];
      return true, num;
    }

    /** The tables `atari_write` fills, and the format it leaves: none of its complaints
        about partitions that are left over is ever raised, every primary partition
        gets exactly one entry, and ICD and XGM are left when they are not needed. */
    method Write() returns (ok: bool, ahdi: seq<int>, icd: seq<int>)
      requires Valid()
      modifies this`format
      ensures ok && Valid()
      ensures format == if !HasExt(parts) && Prims(parts) <= N_AHDI then Ahdi else old(format)
      ensures |ahdi| == N_AHDI && |icd| <= N_ICD && Distinct(parts, ahdi + icd) && AllIn(parts, ahdi + icd)
      ensures |icd| > 0 ==> format == Icd
    {
      hide Count, Packed, Grouped, Numbered, Left, Distinct, Holds, AllIn, HasExt, HasLogical, XgmBegin;
      ghost var s := parts;
      var primCount, last, e := Prims(parts), LastNum(parts), FirstOf(parts, Extended);
      WriteFacts(format, parts);
      assert format != Icd || e < 0;
      assert format != Xgm || primCount + XgmBegin(parts) <= N_AHDI;
      assert format != Ahdi || (e < 0 && primCount + XgmBegin(parts) <= N_AHDI);
      icd := [];
      var n := 1;
      if primCount == 0 {
        ahdi := [NONE, NONE, NONE, NONE];
        EmptyTable(parts);
      } else {
        ahdi, n := FillAhdi(parts, e);
      }
      assert ahdi + [] == ahdi;
      LeftIsLast(parts, n);
      if (e >= 0 || format == Ahdi) && n <= last { return false, ahdi, icd; }
      if n > last && (format == Icd || e < 0) { format := Ahdi; }
      if primCount == 0 { return true, ahdi, icd; }
      if format == Icd { icd, n := FillIcd(parts, n, ahdi); }
      else if e < 0 { AllNormalLeft(parts, ahdi, n); }
      if n <= last { return false, ahdi, icd; }
      return true, ahdi, icd;
    }

    /** The end of a failed `atari_read`. */
    method Reset()
      modifies this
      ensures Valid() && format == Ahdi && parts == []
    {
      format, parts := Ahdi, [];
    }

    /** `atr_parse_add_rawpart`: its assertion about the number holds. */
    method AddNext(kind: Kind, accepted: bool, pnum: int) returns (ok: bool)
      requires Valid() && kind != Extended && Sequential(parts, pnum)
      requires kind == Logical ==> HasLogical(parts) ==> LastLogical(parts, pnum - 1)
      modifies this
      ensures Valid()
      ensures ok ==> Sequential(parts, pnum + 1) && Prims(parts) == old(Prims(parts)) + (if kind != Logical then 1 else 0)
      ensures HasExt(parts) <==> old(HasExt(parts))
      ensures ok && kind == Logical ==> LastLogical(parts, pnum)
    {
      hide Suits, Tidy, Count, Wanted, Sequential, HasExt, HasLogical, NextNumber, LastLogical;
      ghost var s := parts;
      var num;
      ok, num := Add(kind, accepted);
      if ok {
        ghost var base :| MadeRoom(s, kind, base) && NextNumber(base, kind, num) && parts == base + [AtrPart(kind, num)];
        NoRoomNeeded(s, kind, base, pnum);
        NextInLine(s, kind, num, pnum);
        assert num == pnum;
        LineGrows(s, kind, pnum);
      }
    }

    /** `atr_read_logicals`, for a chain of `count` logical partitions. */
    method ReadLogicals(count: nat, accepts: (int, int) -> bool, slot: int, pnum0: int) returns (ok: bool, pnum: int)
      requires Valid() && Sequential(parts, pnum0) && HasExt(parts) && !HasLogical(parts)
      modifies this
      ensures Valid() && HasExt(parts)
      ensures ok ==> Sequential(parts, pnum) && Prims(parts) == old(Prims(parts))
    {
      hide Suits, Tidy, Count, Sequential, HasExt, HasLogical, LastLogical;
      pnum := pnum0;
      var i := 0;
      while i < count
        invariant 0 <= i <= count && Valid() && HasExt(parts) && Sequential(parts, pnum) && Prims(parts) == old(Prims(parts))
        invariant HasLogical(parts) ==> LastLogical(parts, pnum - 1)
      {
        ok := AddNext(Logical, accepts(slot, i), pnum);
        if !ok { return; }
        pnum := pnum + 1;
        i := i + 1;
      }
      ok := true;
    }

    /** `atari_read` of any root table, whether `atari_probe` accepted it or its complaint
        was ignored; `icd` says which ICD entries are to be read, none if the first of
        them is not a known one.  Every assertion about numbers holds; on success the
        numbers are consecutive, and otherwise the table is empty. */
    method Read(probed: bool, ignored: bool, table: seq<RawEntry>, icd: seq<bool>, accepts: (int, int) -> bool) returns (ok: bool)
      requires |table| == N_AHDI && |icd| == N_ICD
      modifies this
      ensures Valid() && (if ok then exists n :: Sequential(parts, n) else format == Ahdi && parts == [])
      ensures ok ==> probed || ignored
    {
      hide Suits, Tidy, Count, Sequential, HasExt, HasLogical, LastLogical;
      Reset();
      if !probed && !ignored { return false; }
      EmptyLine();
      var pnum, xgm, pcount, i := 1, false, 0, 0;
      while i < N_AHDI
        invariant 0 <= i <= N_AHDI && Valid() && Sequential(parts, pnum) && Prims(parts) <= i
        invariant xgm <==> HasExt(parts)
        invariant HasLogical(parts) ==> xgm
      {
        if table[i].Plain? {
          pcount := pcount + 1;
          ok := AddNext(Normal, accepts(i, -1), pnum);
          if !ok { Reset(); return; }
          TidyLogicals(parts);
          pnum := pnum + 1;
        } else if table[i].XgmEntry? {
          pcount := pcount + 1;
          XgmSuits(format, parts);
          format := Xgm;
          xgm := true;
          ghost var s := parts;
          var num;
          ok, num := Add(Extended, accepts(i, -1));
          if !ok { Reset(); return; }
          TidyLogicals(s);
          ExtInLine(s, parts, num, pnum);
          ok, pnum := ReadLogicals(table[i].logicals, accepts, i, pnum);
          if !ok { Reset(); return; }
        }
        i := i + 1;
      }
      if !xgm && pcount != 0 {
        ok := ReadIcd(icd, accepts, pnum);
        if !ok { Reset(); return; }
      }
      ok := true;
    }

    /** The ICD part of `atari_read`. */
    method ReadIcd(icd: seq<bool>, accepts: (int, int) -> bool, pnum0: int) returns (ok: bool)
      requires Valid() && |icd| == N_ICD && Sequential(parts, pnum0) && !HasExt(parts)
      modifies this
      ensures Valid() && (ok ==> exists n :: Sequential(parts, n))
    {
      hide Tidy, Count, Sequential, HasExt, HasLogical, LastLogical;
      var pnum, i := pnum0, 0;
      while i < N_ICD
        invariant 0 <= i <= N_ICD && Valid() && Sequential(parts, pnum) && !HasExt(parts)
      {
        if icd[i] {
          format := Icd;
          ok := AddNext(Normal, accepts(N_AHDI + i, -1), pnum);
          if !ok { return; }
          pnum := pnum + 1;
        }
        i := i + 1;
      }
      ok := true;
    }
  }

  lemma RemoveIs(s: Parts, k: nat)
    requires k < |s|
    ensures RemoveAt(s, k) == s[..k] + s[k + 1..]
  {
  }

  lemma NothingSqueezed(s: Parts)
    requires Numbered(s)
    ensures Squeezed(s, s, 0, 0)
  {
  }

  lemma SqueezedNumbered(s0: Parts, s: Parts, i: int, c: int)
    requires Squeezed(s0, s, i, c)
    ensures Numbered(s)
  {
  }

  function FirstOf(s: Parts, kind: Kind): (k: int)
    ensures -1 <= k < |s| && (k >= 0 ==> s[k].kind == kind)
    ensures k < 0 ==> forall i :: 0 <= i < |s| ==> s[i].kind != kind
  {
    if s == [] then -1
    else if s[0].kind == kind then 0
    else
      var k := FirstOf(s[1..], kind);
      if k < 0 then -1 else k + 1
  }

  lemma ExtThere(s: Parts, k: nat)
    requires k < |s| && s[k].kind == Extended
    ensures HasExt(s)
  {
  }

  lemma NoLogicalThere(s: Parts)
    ensures FirstOf(s, Logical) < 0 ==> !HasLogical(s)
  {
    hide FirstOf;
  }

  lemma NoExtThere(s: Parts)
    requires HasExt(s)
    ensures FirstOf(s, Extended) >= 0
  {
    hide FirstOf;
  }

  lemma OnlyAt(s: Parts, n: int)
    requires Numbered(s)
    ensures forall i :: 0 <= i < |s| && s[i].num == n ==> i == Find(s, n)
  {
    hide Find;
  }

  lemma IsLastLogical(s: Parts, l: int)
    requires 0 <= l && (l > 0 ==> Find(s, l) >= 0 && s[Find(s, l)].kind == Logical) && Numbered(s)
    requires forall i :: 0 <= i < |s| && s[i].kind == Logical ==> s[i].num <= l
    ensures LastLogical(s, l) && (l > 0 <==> HasLogical(s)) && forall m :: LastLogical(s, m) ==> m == l
  {
    hide Find;
    if l > 0 { assert s[Find(s, l)].num == l && HasLogical(s); }
    if i :| 0 <= i < |s| && s[i].kind == Logical { assert Ranged(s[i]); }
  }

  lemma NoneRaised(s: Parts, l: int, from: int)
    requires forall i :: 0 <= i < |s| ==> s[i].num <= from
    ensures Raised(s, l, from) == s
  {
    assert forall i :: 0 <= i < |s| ==> Raised(s, l, from)[i] == s[i];
  }

  lemma RaisedFloor(s: Parts, l: int, from: int)
    requires from <= l
    ensures Raised(s, l, from) == Raised(s, l, l)
  {
    assert forall i :: 0 <= i < |s| ==> Raised(s, l, from)[i] == Raised(s, l, l)[i];
  }

  /** One turn of the loop that moves numbers up. */
  lemma RaiseOne(s: Parts, l: int, num: int)
    requires Numbered(s) && num > l >= 1
    ensures var t := Raised(s, l, num);
            var k := Find(t, num);
            Raised(s, l, num - 1) == if k >= 0 && t[k].kind == Normal then t[k := t[k].(num := t[k].num + 1)] else t
  {
    hide Find;
    var t, t' := Raised(s, l, num), Raised(s, l, num - 1);
    var k := Find(t, num);
    forall i | 0 <= i < |s| && s[i].num == num ensures i == k {
      assert t[i].num == num;
      RaisedStart(s, l, num, k, i);
    }
    if k >= 0 { RaisedSource(s, l, num, k); }
    assert forall i :: 0 <= i < |s| ==> t'[i] == if i == k && t[k].kind == Normal then t[k].(num := t[k].num + 1) else t[i];
  }

  lemma RaisedSource(s: Parts, l: int, num: int, k: nat)
    requires Numbered(s) && num > l >= 1 && k < |s| && Raised(s, l, num)[k].num == num
    ensures s[k].num == num
  {
  }

  lemma RaisedStart(s: Parts, l: int, num: int, k: int, i: nat)
    requires Numbered(s) && num > l >= 1 && 0 <= k < |s| && Raised(s, l, num)[k].num == num && i < |s| && s[i].num == num
    ensures i == k
  {
    RaisedSource(s, l, num, k);
  }

  // ---- adding -------------------------------------------------------------------------------------------

  /** The table in which the new partition is numbered: for a logical one that is not
      the first, the numbers after the last logical one have moved up. */
  ghost predicate MadeRoom(s: Parts, kind: Kind, t: Parts) {
    if kind == Logical && HasLogical(s) then LastNum(s) < MAXIMUM_PARTS && exists l :: LastLogical(s, l) && t == Raised(s, l, l)
    else t == s
  }

  /** 0 for the extended partition and the least free number for the others. */
  ghost predicate NextNumber(s: Parts, kind: Kind, n: int) {
    if kind == Extended then n == 0 else 1 <= n <= MAXIMUM_PARTS && !Used(s, n) && FullBelow(s, n)
  }

  lemma TidyFacts(s: Parts)
    requires Tidy(s)
    ensures Numbered(s) && (HasLogical(s) ==> HasExt(s))
  {
  }

  lemma NextIs(s: Parts, kind: Kind, max: int, n: int)
    requires kind == Extended ==> n == 0
    requires kind != Extended ==> 1 <= max <= MAXIMUM_PARTS && n == FirstFree(s, 1, max) && n <= max
    ensures NextNumber(s, kind, n)
  {
  }

  /** Making room keeps everything. */
  lemma RoomMade(s: Parts, kind: Kind, t: Parts, f: Format)
    requires Tidy(s) && Suits(f, s) && (kind == Logical ==> HasExt(s))
    requires kind == Logical && HasLogical(s) ==> LastNum(s) < MAXIMUM_PARTS && forall l :: LastLogical(s, l) ==> t == Raised(s, l, l)
    requires !(kind == Logical && HasLogical(s)) ==> t == s
    ensures MadeRoom(s, kind, t) && Tidy(t) && SameKinds(s, t) && Prims(t) == Prims(s)
    ensures forall g :: Suits(g, s) ==> Suits(g, t)
  {
    hide Numbered, Packed, Grouped, Raised, Prims;
    if kind == Logical && HasLogical(s) {
      var l := TheLast(s);
      RaisedTidy(s, l);
    }
    KindsKeep(s, t);
  }

  lemma TheLast(s: Parts) returns (l: int)
    requires HasLogical(s)
    ensures LastLogical(s, l)
  {
    var k :| 0 <= k < |s| && s[k].kind == Logical;
    l := s[k].num;
    while exists j :: 0 <= j < |s| && s[j].kind == Logical && s[j].num > s[k].num
      invariant 0 <= k < |s| && s[k].kind == Logical && l == s[k].num
      decreases LastNum(s) - s[k].num
    {
      k :| 0 <= k < |s| && s[k].kind == Logical && s[k].num > l;
      l := s[k].num;
    }
  }

  lemma NewTidy(s: Parts, kind: Kind, t: Parts, n: int)
    requires Tidy(s) && Tidy(t) && MadeRoom(s, kind, t) && NextNumber(t, kind, n) && SameKinds(s, t)
    requires (kind == Logical ==> HasExt(s)) && (kind == Extended ==> !HasExt(s))
    ensures Tidy(t + [AtrPart(kind, n)])
  {
    hide Numbered, Packed, Grouped, Raised, Prims, Used, FullBelow, LastLogical;
    KindsKeep(s, t);
    match kind
    case Normal => NormalTidy(t, n);
    case Extended => ExtTidy(t);
    case Logical =>
      if HasLogical(s) { LogicalAfter(s, t, n); } else { FirstLogicalTidy(t, n); }
  }

  lemma LogicalAfter(s: Parts, t: Parts, n: int)
    requires Tidy(s) && Tidy(t) && HasLogical(s) && MadeRoom(s, Logical, t) && NextNumber(t, Logical, n) && HasExt(t) && HasLogical(t)
    ensures Tidy(t + [AtrPart(Logical, n)])
  {
    hide Packed, Grouped, Raised, Prims;
    var l :| LastLogical(s, l) && t == Raised(s, l, l);
    RaisedTidy(s, l);
    NextUnique(t, l + 1, n);
    LogicalTidy(t, l);
  }

  lemma NextUnique(t: Parts, m: int, n: int)
    requires 1 <= n && 1 <= m && !Used(t, m) && FullBelow(t, m) && !Used(t, n) && FullBelow(t, n)
    ensures m == n
  {
    hide Used;
  }

  /** The chosen format suits the table with the new partition. */
  lemma NewKeeps(f: Format, s: Parts, kind: Kind, t: Parts, n: int)
    requires Tidy(s) && Suits(f, s) && !Conflict(s, kind, true) && MadeRoom(s, kind, t) && NextNumber(t, kind, n)
    requires (kind == Logical ==> HasExt(s)) && (kind == Extended ==> !HasExt(s)) && Prims(t) == Prims(s) && Tidy(t)
    requires Tidy(t + [AtrPart(kind, n)]) && forall g :: Suits(g, s) ==> Suits(g, t)
    ensures Suits(Wanted(s, kind, true), t + [AtrPart(kind, n)])
    ensures Prims(t + [AtrPart(kind, n)]) == Prims(s) + (if kind != Logical then 1 else 0)
  {
    hide Prims, Packed, Grouped, Conflict, MadeRoom, HasExt, HasLogical;
    var p := AtrPart(kind, n);
    PrimsAppend(t, p);
    if kind != Logical {
      assert t == s by { RoomIdle(s, kind, t); }
      if Find(s, 1) < 0 && kind == Normal { FirstIsOne(s, n); }
      NewFits(f, s, p);
    } else {
      NewSuits(f, s, kind);
      assert Wanted(s, Logical, true) == Xgm;
      if Prims(t) == N_AHDI { OneKept(t, p); }
    }
  }

  lemma RoomIdle(s: Parts, kind: Kind, t: Parts)
    requires MadeRoom(s, kind, t) && kind != Logical
    ensures t == s
  {
  }

  lemma FirstIsOne(s: Parts, n: int)
    requires Find(s, 1) < 0 && NextNumber(s, Normal, n)
    ensures n == 1
  {
    UsedFind(s, 1);
  }

  lemma OneKept(t: Parts, p: AtrPart)
    requires OneIsNormal(t) && Numbered(t + [p])
    ensures OneIsNormal(t + [p])
  {
    var k := Find(t, 1);
    assert (t + [p])[k] == t[k];
    FindIs(t + [p], k);
  }

  // ---- writing ------------------------------------------------------------------------------------------

  lemma WriteFacts(f: Format, s: Parts)
    requires Inv(f, s)
    ensures Ready(s, FirstOf(s, Extended), false) && (HasExt(s) <==> FirstOf(s, Extended) >= 0)
    ensures Asserted(f, s, XgmBegin(s)) && (f != Icd ==> Prims(s) + XgmBegin(s) <= N_AHDI)
    ensures !HasExt(s) ==> !HasLogical(s) && XgmBegin(s) == 0
  {
    hide Count, Packed, Grouped, Numbered;
    BeginFacts(s, Normal, false);
    SuitsAsserted(f, s, XgmBegin(s));
    if HasExt(s) { NoExtThere(s); }
    var k := Find(s, 1);
    if k >= 0 && s[k].kind == Logical { assert HasLogical(s); }
  }

  lemma EmptyTable(s: Parts)
    requires Tidy(s) && Prims(s) == 0
    ensures s == [] && LastNum(s) == -1 && Left(s, 1) == 0 && !HasExt(s)
    ensures var e := [NONE, NONE, NONE, NONE]; Distinct(s, e) && AllIn(s, e) && Holds(s, e, 1)
  {
    hide Packed, Grouped, Numbered;
    CountNone(s, Primary);
    assert !HasExt(s);
    assert forall i :: 0 <= i < |s| ==> !Primary(s[i]);
  }

  lemma LeftIsLast(s: Parts, n: int)
    requires Numbered(s) && n >= 1
    ensures Left(s, n) == 0 <==> n > LastNum(s)
  {
    hide Left;
    if Left(s, n) == 0 { NothingLeft(s, n); }
    if n > LastNum(s) { PastLast(s, n); }
  }

  lemma AllNormalLeft(s: Parts, entries: seq<int>, n: int)
    requires Holds(s, entries, n) && !HasExt(s) && !HasLogical(s)
    ensures n > LastNum(s) ==> AllIn(s, entries)
  {
    if n > LastNum(s) { AllNormalIn(s, entries, n); }
  }

  // ---- reading ------------------------------------------------------------------------------------------

  /** An AHDI entry of the root table; an extended one leads to a chain of logical
      partitions. */
  datatype RawEntry = Unused | Plain | XgmEntry(logicals: nat)

  /** The numbers in use are those from 1 to before `n`. */
  ghost predicate Sequential(s: Parts, n: int) {
    n >= 1 && FullBelow(s, n) && forall i :: 0 <= i < |s| ==> s[i].num < n
  }

  lemma EmptyLine()
    ensures Sequential([], 1) && !HasExt([]) && !HasLogical([]) && Prims([]) == 0
  {
  }

  lemma TidyLogicals(s: Parts)
    requires Tidy(s)
    ensures HasLogical(s) ==> HasExt(s)
  {
  }

  /** Nothing has to move up when the last number is a logical one. */
  lemma NoRoomNeeded(s: Parts, kind: Kind, base: Parts, n: int)
    requires MadeRoom(s, kind, base) && Sequential(s, n) && (kind == Logical ==> HasLogical(s) ==> LastLogical(s, n - 1))
    ensures base == s
  {
    if kind == Logical && HasLogical(s) {
      var l :| LastLogical(s, l) && base == Raised(s, l, l);
      assert l == n - 1;
      NoneRaised(s, l, l);
    }
  }

  lemma NextInLine(s: Parts, kind: Kind, num: int, n: int)
    requires NextNumber(s, kind, num) && kind != Extended && Sequential(s, n)
    ensures num == n
  {
    assert !Used(s, n);
    NextUnique(s, n, num);
  }

  lemma LineGrows(s: Parts, kind: Kind, n: int)
    requires Sequential(s, n) && kind != Extended
    ensures Sequential(s + [AtrPart(kind, n)], n + 1)
    ensures kind == Logical ==> LastLogical(s + [AtrPart(kind, n)], n)
  {
    var p := AtrPart(kind, n);
    var t := s + [p];
    UsedMore(s, p, n);
    assert t[|s|] == p;
    assert Used(t, n);
  }

  lemma XgmSuits(f: Format, s: Parts)
    requires Inv(f, s) && Prims(s) < N_AHDI
    ensures Suits(Xgm, s)
  {
  }

  lemma ExtInLine(s: Parts, t: Parts, num: int, n: int)
    requires exists base :: MadeRoom(s, Extended, base) && NextNumber(base, Extended, num) && t == base + [AtrPart(Extended, num)]
    requires Sequential(s, n) && !HasLogical(s)
    ensures Sequential(t, n) && !HasLogical(t)
  {
    PrimsAppend(s, AtrPart(Extended, num));
    UsedMore(s, AtrPart(Extended, num), n);
  }
}
