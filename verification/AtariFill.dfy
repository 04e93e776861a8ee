/** Filling the root table of an Atari label (libparted/labels/atari.c:1062-1111,
    1150-1180): four AHDI entries, and eight more in ICD mode. */
module AtariFill {
  import opened Atari

  /** The entry is not used. */
  const NONE := -1

  function NormalFrom(n: int): AtrPart -> bool {
    (p: AtrPart) => p.kind == Normal && p.num >= n
  }

  predicate LogicalFrom(s: Parts, n: int) {
    exists i :: 0 <= i < |s| && s[i].kind == Logical && s[i].num >= n
  }

  /** How many entries the partitions numbered from `n` on take; the logical ones take
      one together, which is that of the extended partition. */
  function Left(s: Parts, n: int): nat {
    Count(s, NormalFrom(n)) + (if LogicalFrom(s, n) then 1 else 0)
  }

  /** The logical partitions are all below `n` or all not. */
  ghost predicate Unsplit(s: Parts, n: int) {
    LogicalFrom(s, n) ==> forall i :: 0 <= i < |s| && s[i].kind == Logical ==> s[i].num >= n
  }

  lemma NothingLeft(s: Parts, n: int)
    requires Numbered(s) && Left(s, n) == 0 && n >= 1
    ensures n > LastNum(s)
  {
    CountNone(s, NormalFrom(n));
    assert forall i :: 0 <= i < |s| ==> Ranged(s[i]) && !NormalFrom(n)(s[i]);
  }

  lemma PastLast(s: Parts, n: int)
    requires n > LastNum(s)
    ensures Left(s, n) == 0
  {
    CountNone(s, NormalFrom(n));
  }

  /** Passing an unused number. */
  lemma LeftSkip(s: Parts, n: int)
    requires Find(s, n) < 0
    ensures Left(s, n + 1) == Left(s, n) && (Unsplit(s, n) ==> Unsplit(s, n + 1))
    ensures LogicalFrom(s, n + 1) <==> LogicalFrom(s, n)
  {
    CountSame(s, s, NormalFrom(n), NormalFrom(n + 1));
    if i :| 0 <= i < |s| && s[i].kind == Logical && s[i].num >= n { assert s[i].num >= n + 1; }
    if i :| 0 <= i < |s| && s[i].kind == Logical && s[i].num >= n + 1 { assert s[i].num >= n; }
  }

  /** Passing a normal partition. */
  lemma LeftNormal(s: Parts, k: nat)
    requires Numbered(s) && k < |s| && s[k].kind == Normal
    ensures var n := s[k].num; Left(s, n) == Left(s, n + 1) + 1 && (Unsplit(s, n) ==> Unsplit(s, n + 1))
    ensures LogicalFrom(s, s[k].num + 1) <==> LogicalFrom(s, s[k].num)
  {
    var n := s[k].num;
    CountDiffers(s, k, NormalFrom(n), NormalFrom(n + 1));
    if i :| 0 <= i < |s| && s[i].kind == Logical && s[i].num >= n { assert s[i].num >= n + 1; }
    if i :| 0 <= i < |s| && s[i].kind == Logical && s[i].num >= n + 1 { assert s[i].num >= n; }
  }

  /** Passing the whole group of logical partitions. */
  lemma LeftGroup(s: Parts, n: int, n': int, k: nat)
    requires Numbered(s) && Grouped(s) && k < |s| && s[k].kind == Logical && s[k].num == n < n'
    requires forall i :: 0 <= i < |s| && n <= s[i].num < n' ==> s[i].kind == Logical
    requires n' > LastNum(s) || exists i :: 0 <= i < |s| && s[i].num == n' && s[i].kind != Logical
    ensures Left(s, n) == Left(s, n') + 1 && !LogicalFrom(s, n') && LogicalFrom(s, n)
  {
    CountSame(s, s, NormalFrom(n), NormalFrom(n'));
  }

  /** All partitions together. */
  lemma LeftAll(s: Parts)
    requires Numbered(s) && (HasLogical(s) ==> HasExt(s))
    ensures Left(s, 1) + (if HasExt(s) && !HasLogical(s) then 1 else 0) == Prims(s)
    ensures LogicalFrom(s, 1) <==> HasLogical(s)
  {
    if i :| 0 <= i < |s| && s[i].kind == Logical { assert Ranged(s[i]); }
    if HasExt(s) {
      var e :| 0 <= e < |s| && s[e].kind == Extended;
      forall i | 0 <= i < |s| && i != e ensures Primary(s[i]) == NormalFrom(1)(s[i]) {
        assert Ranged(s[i]) && Ranged(s[e]);
      }
      CountDiffers(s, e, Primary, NormalFrom(1));
    } else {
      forall i | 0 <= i < |s| ensures Primary(s[i]) == NormalFrom(1)(s[i]) {
        assert Ranged(s[i]);
      }
      CountSame(s, s, Primary, NormalFrom(1));
    }
  }

  // ---- the loops --------------------------------------------------------------------------------------

  /** The inner loop that looks for the next number in use. */
  method NextUsed(s: Parts, n0: int, last: int) returns (n: int, k: int)
    requires n0 >= 1 && last == LastNum(s)
    ensures n0 <= n && k == Find(s, n) && (k < 0 ==> n > last)
    ensures Left(s, n) == Left(s, n0) && (Unsplit(s, n0) ==> Unsplit(s, n))
    ensures LogicalFrom(s, n) <==> LogicalFrom(s, n0)
    ensures forall i :: 0 <= i < |s| ==> !(n0 <= s[i].num < n)
  {
    hide Left, Unsplit, LogicalFrom;
    n := n0;
    while n <= last && Find(s, n) < 0
      invariant n0 <= n
      invariant Left(s, n) == Left(s, n0) && (Unsplit(s, n0) ==> Unsplit(s, n))
      invariant LogicalFrom(s, n) <==> LogicalFrom(s, n0)
      invariant forall i :: 0 <= i < |s| ==> !(n0 <= s[i].num < n)
    {
      LeftSkip(s, n);
      n := n + 1;
    }
    k := Find(s, n);
  }

  /** The inner loop that passes the logical partitions. */
  method PassGroup(s: Parts, n0: int, last: int, ghost k: nat) returns (n: int)
    requires n0 >= 1 && last == LastNum(s) && Numbered(s) && Grouped(s) && k < |s| && s[k].kind == Logical && s[k].num == n0
    ensures n > n0 && Left(s, n0) == Left(s, n) + 1 && !LogicalFrom(s, n) && LogicalFrom(s, n0)
    ensures forall i :: 0 <= i < |s| && n0 <= s[i].num < n ==> s[i].kind == Logical
  {
    hide Left, LogicalFrom, Grouped;
    n := n0;
    while n <= last
      invariant n0 <= n && (n0 == n ==> n <= last)
      invariant forall i :: 0 <= i < |s| && n0 <= s[i].num < n ==> s[i].kind == Logical
    {
      var j := Find(s, n);
      if n == n0 { FindIs(s, k); }
      if j >= 0 && s[j].kind != Logical { break; }
      forall i | 0 <= i < |s| && s[i].num == n ensures s[i].kind == Logical { FindIs(s, i); }
      n := n + 1;
    }
    LeftGroup(s, n0, n, k);
  }

  // ---- the AHDI table -------------------------------------------------------------------------------

  /** The entries name primary partitions, none of them twice. */
  ghost predicate Distinct(s: Parts, entries: seq<int>) {
    && (forall j :: 0 <= j < |entries| ==> entries[j] == NONE || (0 <= entries[j] < |s| && s[entries[j]].kind != Logical))
    && (forall i, j :: 0 <= i < j < |entries| && entries[i] != NONE ==> entries[i] != entries[j])
  }

  /** The normal partitions with numbers below `n` are in, the others are not. */
  ghost predicate Holds(s: Parts, entries: seq<int>, n: int) {
    forall k :: 0 <= k < |s| && s[k].kind == Normal ==> (k in entries <==> s[k].num < n)
  }

  lemma AddEntry(s: Parts, entries: seq<int>, k: int)
    requires Distinct(s, entries) && k !in entries && (k == NONE || (0 <= k < |s| && s[k].kind != Logical))
    ensures Distinct(s, entries + [k])
  {
  }

  lemma AddNone(s: Parts, entries: seq<int>)
    requires Distinct(s, entries)
    ensures Distinct(s, entries + [NONE])
    ensures forall k :: k >= 0 ==> (k in entries + [NONE] <==> k in entries)
  {
  }

  lemma HoldsNone(s: Parts, entries: seq<int>, n: int, k: int)
    requires Holds(s, entries, n) && (k < 0 || (k < |s| && s[k].kind != Normal))
    ensures Holds(s, entries + [k], n)
  {
  }

  lemma HoldsMore(s: Parts, entries: seq<int>, n: int, n': int)
    requires Holds(s, entries, n) && n <= n' && forall i :: 0 <= i < |s| && n <= s[i].num < n' ==> s[i].kind == Logical
    ensures Holds(s, entries, n')
  {
  }

  lemma HoldsNormal(s: Parts, entries: seq<int>, k: nat)
    requires Numbered(s) && k < |s| && s[k].kind == Normal && Holds(s, entries, s[k].num)
    ensures Holds(s, entries + [k], s[k].num + 1) && k !in entries
  {
    forall j | 0 <= j < |s| && s[j].kind == Normal && j != k ensures s[j].num != s[k].num {
      if j < k { assert s[j].num != s[k].num; } else { assert s[k].num != s[j].num; }
    }
  }

  /** Where the filling stands after `i` entries: the next number, whether the extended
      partition is still to be put in at the end, and how much is left. */
  ghost predicate Filling(s: Parts, e: int, entries: seq<int>, n: int, append: bool) {
    && n >= 1 && Distinct(s, entries) && Holds(s, entries, n) && Unsplit(s, n)
    && (e >= 0 ==> (e in entries <==> !append && !LogicalFrom(s, n)))
    && (append ==> !LogicalFrom(s, n))
    && Left(s, 1) <= Left(s, n) + |entries|
  }

  /** How many more entries are needed. */
  function Needed(s: Parts, n: int, append: bool, pending: bool): nat {
    Left(s, n) + (if append then 1 else 0) + (if pending then 1 else 0)
  }

  /** What the table is and where its extended partition is, -1 for none. */
  ghost predicate Ready(s: Parts, e: int, append: bool) {
    && Numbered(s) && Grouped(s) && -1 <= e < |s| && (e >= 0 ==> s[e].kind == Extended)
    && ((append || HasLogical(s)) ==> e >= 0)
  }

  lemma Moved(s: Parts, e: int, entries: seq<int>, n0: int, n: int, append: bool)
    requires Filling(s, e, entries, n0, append) && n0 <= n && Left(s, n) == Left(s, n0) && Unsplit(s, n)
    requires (LogicalFrom(s, n) <==> LogicalFrom(s, n0)) && forall i :: 0 <= i < |s| ==> !(n0 <= s[i].num < n)
    ensures Filling(s, e, entries, n, append)
  {
    hide Distinct, Left, Unsplit, LogicalFrom, Holds;
    HoldsMore(s, entries, n0, n);
  }

  lemma PutNone(s: Parts, e: int, entries: seq<int>, n: int, append: bool)
    requires Filling(s, e, entries, n, append)
    ensures Filling(s, e, entries + [NONE], n, append)
  {
    hide Distinct, Left, Unsplit, LogicalFrom, Holds;
    AddNone(s, entries);
    HoldsNone(s, entries, n, NONE);
  }

  lemma PutExt(s: Parts, e: int, entries: seq<int>, n: int, n': int, append: bool)
    requires Ready(s, e, append) && e >= 0 && Filling(s, e, entries, n, append) && n <= n' && !LogicalFrom(s, n')
    requires append || LogicalFrom(s, n)
    requires Left(s, n') + 1 >= Left(s, n) && forall i :: 0 <= i < |s| && n <= s[i].num < n' ==> s[i].kind == Logical
    ensures Filling(s, e, entries + [e], n', false)
  {
    hide Distinct, Left, LogicalFrom, Holds;
    AddEntry(s, entries, e);
    HoldsNone(s, entries, n, e);
    HoldsMore(s, entries + [e], n, n');
  }

  lemma PutNormal(s: Parts, e: int, entries: seq<int>, k: nat, append: bool)
    requires Ready(s, e, append) && k < |s| && s[k].kind == Normal && Filling(s, e, entries, s[k].num, append)
    ensures Filling(s, e, entries + [k], s[k].num + 1, append)
  {
    hide Distinct, Left, Unsplit, LogicalFrom, Holds;
    LeftNormal(s, k);
    HoldsNormal(s, entries, k);
    AddEntry(s, entries, k);
  }

  /** One turn of the loop over the AHDI entries. */
  method FillOne(s: Parts, e: int, n0: int, append0: bool, begin: bool, last: int, i: nat, ghost entries: seq<int>)
    returns (entry: int, n: int, append: bool)
    requires Ready(s, e, append0) && Filling(s, e, entries, n0, append0) && |entries| == i && last == LastNum(s)
    requires begin <==> XgmBegin(s) == 1
    ensures Filling(s, e, entries + [entry], n, append) && (append ==> append0)
    ensures var was, now := Needed(s, n0, append0, i == 0 && begin), Needed(s, n, append, false);
            now == 0 || now < was || (now == 1 && i == 0 && append)
  {
    hide Left, Unsplit, LogicalFrom, Distinct, Holds, Grouped, Numbered, HasLogical;
    var k;
    n, k := NextUsed(s, n0, last);
    append := append0;
    FillingUnsplit(s, e, entries, n0, append);
    Moved(s, e, entries, n0, n, append);
    if k < 0 && i != 0 && append {
      PastLast(s, n);
      PutExt(s, e, entries, n, n, append);
      return e, n, false;
    }
    if k < 0 || (i == 0 && begin) {
      if k < 0 { PastLast(s, n); }
      PutNone(s, e, entries, n, append);
      return NONE, n, append;
    }
    if s[k].kind == Logical {
      LogicalHere(s, k);
      var n1 := n;
      n := PassGroup(s, n1, last, k);
      PutExt(s, e, entries, n1, n, append);
      return e, n, false;
    }
    NotExtHere(s, k);
    LeftNormal(s, k);
    PutNormal(s, e, entries, k, append);
    return k, n + 1, append;
  }

  lemma FillingUnsplit(s: Parts, e: int, entries: seq<int>, n: int, append: bool)
    requires Filling(s, e, entries, n, append)
    ensures Unsplit(s, n)
  {
  }

  lemma LogicalHere(s: Parts, k: nat)
    requires k < |s| && s[k].kind == Logical
    ensures HasLogical(s) && LogicalFrom(s, s[k].num)
  {
  }

  lemma NotExtHere(s: Parts, k: nat)
    requires Numbered(s) && k < |s| && s[k].num >= 1 && s[k].kind != Logical
    ensures s[k].kind == Normal
  {
    assert Ranged(s[k]);
  }

  lemma FillingStarts(s: Parts, e: int, append: bool)
    requires Ready(s, e, append) && (append <==> e >= 0 && !HasLogical(s)) && (HasExt(s) <==> e >= 0)
    ensures Filling(s, e, [], 1, append)
    ensures Left(s, 1) + (if append then 1 else 0) == Prims(s)
  {
    hide Left, Count, Holds;
    LeftAll(s);
    assert Holds(s, [], 1) by { NoneHeld(s); }
    assert forall i :: 0 <= i < |s| ==> Ranged(s[i]);
  }

  lemma NoneHeld(s: Parts)
    requires Numbered(s)
    ensures Holds(s, [], 1)
  {
    assert forall i :: 0 <= i < |s| ==> Ranged(s[i]);
  }

  /** Every primary partition has its entry. */
  ghost predicate AllIn(s: Parts, entries: seq<int>) {
    forall k :: 0 <= k < |s| && s[k].kind != Logical ==> k in entries
  }

  /** The loop over the four AHDI entries. */
  method FillAhdi(s: Parts, e: int) returns (entries: seq<int>, n: int)
    requires Ready(s, e, false) && (HasExt(s) <==> e >= 0)
    ensures |entries| == N_AHDI && Distinct(s, entries) && n >= 1 && Holds(s, entries, n)
    ensures Prims(s) + XgmBegin(s) <= N_AHDI ==> n > LastNum(s) && AllIn(s, entries)
    ensures e < 0 ==> Left(s, n) == if Prims(s) <= N_AHDI then 0 else Prims(s) - N_AHDI
  {
    hide Left, LogicalFrom, Distinct, Holds, Grouped, Numbered, Count, Unsplit, XgmBegin;
    var last, begin := LastNum(s), XgmBegin(s) == 1;
    var append := e >= 0 && !LogicalThere(s);
    LogicalThereIs(s);
    FillingStarts(s, e, append);
    BeginNeedsExt(s, e);
    entries, n := [], 1;
    var i := 0;
    while i < N_AHDI
      invariant 0 <= i <= N_AHDI && |entries| == i && Filling(s, e, entries, n, append) && (append ==> e >= 0)
      invariant Prims(s) + XgmBegin(s) <= N_AHDI ==> Needed(s, n, append, i == 0 && begin) <= N_AHDI - i
      invariant e < 0 ==> Left(s, n) <= if Prims(s) <= i then 0 else Prims(s) - i
    {
      var entry;
      entry, n, append := FillOne(s, e, n, append, begin, last, i, entries);
      entries := entries + [entry];
      i := i + 1;
    }
    if Prims(s) + XgmBegin(s) <= N_AHDI {
      NothingLeft(s, n);
      AllFilled(s, e, entries, n, append);
    }
  }

  lemma BeginNeedsExt(s: Parts, e: int)
    requires Ready(s, e, false)
    ensures XgmBegin(s) == 0 || (XgmBegin(s) == 1 && e >= 0)
  {
    var k := Find(s, 1);
    if k >= 0 && s[k].kind == Logical { assert HasLogical(s); }
  }

  lemma AllFilled(s: Parts, e: int, entries: seq<int>, n: int, append: bool)
    requires Ready(s, e, append) && (HasExt(s) <==> e >= 0) && Filling(s, e, entries, n, append) && n > LastNum(s) && !append
    ensures AllIn(s, entries)
  {
    hide Distinct, Left, Unsplit, Grouped;
    forall k | 0 <= k < |s| && s[k].kind != Logical ensures k in entries {
      assert Ranged(s[k]);
      if s[k].kind == Extended { OnlyExt(s, e, k); }
    }
  }

  lemma OnlyExt(s: Parts, e: int, k: nat)
    requires Numbered(s) && 0 <= e < |s| && s[e].kind == Extended && k < |s| && s[k].kind == Extended
    ensures e == k
  {
    assert Ranged(s[e]) && Ranged(s[k]);
  }

  predicate LogicalThere(s: Parts) {
    s != [] && (s[0].kind == Logical || LogicalThere(s[1..]))
  }

  lemma {:induction false} LogicalThereIs(s: Parts)
    ensures LogicalThere(s) <==> HasLogical(s)
  {
    if s != [] {
      LogicalThereIs(s[1..]);
      assert forall i :: 1 <= i < |s| ==> s[i] == s[1..][i - 1];
    }
  }

  /** The loop over the eight ICD entries, for a table with normal partitions only. */
  method FillIcd(s: Parts, n0: int, ghost ahdi: seq<int>) returns (entries: seq<int>, n: int)
    requires Numbered(s) && Grouped(s) && !HasExt(s) && !HasLogical(s) && n0 >= 1 && Distinct(s, ahdi) && Holds(s, ahdi, n0)
    ensures |entries| == N_ICD && Distinct(s, ahdi + entries)
    ensures Left(s, n0) <= N_ICD ==> n > LastNum(s) && AllIn(s, ahdi + entries)
  {
    hide Left, LogicalFrom, Distinct, Holds, Grouped, Numbered, Count, Unsplit, HasLogical, HasExt;
    var last := LastNum(s);
    entries, n := [], n0;
    assert ahdi + [] == ahdi;
    var i := 0;
    while i < N_ICD
      invariant 0 <= i <= N_ICD && |entries| == i && n >= 1 && Distinct(s, ahdi + entries) && Holds(s, ahdi + entries, n)
      invariant Left(s, n0) <= N_ICD ==> Left(s, n) <= N_ICD - i
    {
      var k;
      ghost var n1 := n;
      n, k := NextUsed(s, n, last);
      HoldsMore(s, ahdi + entries, n1, n);
      if k < 0 {
        PastLast(s, n);
        AddNone(s, ahdi + entries);
        HoldsNone(s, ahdi + entries, n, NONE);
        assert (ahdi + entries) + [NONE] == ahdi + (entries + [NONE]);
        entries := entries + [NONE];
      } else {
        OnlyNormal(s, k);
        assert s[k].kind != Extended && s[k].kind != Logical;
        LeftNormal(s, k);
        HoldsNormal(s, ahdi + entries, k);
        AddEntry(s, ahdi + entries, k);
        assert (ahdi + entries) + [k] == ahdi + (entries + [k]);
        entries := entries + [k];
        n := n + 1;
      }
      i := i + 1;
    }
    if Left(s, n0) <= N_ICD {
      NothingLeft(s, n);
      AllNormalIn(s, ahdi + entries, n);
    }
  }

  lemma OnlyNormal(s: Parts, k: nat)
    requires k < |s| && !HasExt(s) && !HasLogical(s)
    ensures s[k].kind == Normal
  {
  }

  lemma AllNormalIn(s: Parts, entries: seq<int>, n: int)
    requires Holds(s, entries, n) && n > LastNum(s) && !HasExt(s) && !HasLogical(s)
    ensures AllIn(s, entries)
  {
    forall k | 0 <= k < |s| ensures k in entries { OnlyNormal(s, k); }
  }
}
