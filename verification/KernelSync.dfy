/** Telling the kernel about a new partition table: the two passes of
    `_disk_sync_part_table` (libparted/arch/linux.c:3075-3238) against a kernel
    that may refuse any request. */
module KernelSync {
  import opened Geometry

  datatype Extent = Extent(start: int, length: int)

  /** A partition of the disk: its region, and the region the kernel is told, which
      for an extended partition is only its first sectors. */
  datatype DiskPart = DiskPart(geom: Extent, told: Extent) {
    predicate Extended() {
      told != geom
    }
  }

  /** The kernel's partitions by number. */
  type Table = map<int, Extent>

  const EBUSY := 16
  const ENXIO := 6

  /** How often a busy partition is tried again. */
  const RETRIES := 100

  /** The kernel's answer to each request, 0 for success: removing number `n` on the
      k-th attempt when it is there or not, adding it, and resizing it where that
      is supported; and whether asking for its region works in the first and in
      the second pass. */
  datatype Answers = Answers(remove: (int, nat, bool) -> int, add: int -> int, resize: Option<int -> int>,
                             query: (int, bool) -> bool) {
    /** A partition that is there is not refused as missing. */
    ghost predicate Honest() {
      forall n, k :: remove(n, k, true) != ENXIO
    }
  }

  function Entry(t: Table, n: int): Option<Extent> {
    if n in t then Some(t[n]) else None
  }

  class Kernel {
    var table: Table
    const answers: Answers
    /** Every state the table has been in. */
    ghost var past: seq<Table>

    constructor (table: Table, answers: Answers)
      ensures this.table == table && this.answers == answers && past == []
    {
      this.table, this.answers, past := table, answers, [];
    }

    method Remove(n: int, attempt: nat) returns (err: int)
      modifies this
      ensures err == answers.remove(n, attempt, n in old(table))
      ensures table == if err == 0 then old(table) - {n} else old(table)
      ensures past == old(past) + [table]
    {
      err := answers.remove(n, attempt, n in table);
      if err == 0 { table := table - {n}; }
      past := past + [table];
    }

    method Add(n: int, e: Extent) returns (err: int)
      modifies this
      ensures err == answers.add(n)
      ensures table == if err == 0 then old(table)[n := e] else old(table)
      ensures past == old(past) + [table]
    {
      err := answers.add(n);
      if err == 0 { table := table[n := e]; }
      past := past + [table];
    }

    method Resize(n: int, e: Extent) returns (err: int)
      requires answers.resize.Some?
      modifies this
      ensures err == answers.resize.value(n)
      ensures table == if err == 0 then old(table)[n := e] else old(table)
      ensures past == old(past) + [table]
    {
      err := answers.resize.value(n);
      if err == 0 { table := table[n := e]; }
      past := past + [table];
    }

    method StartAndLength(n: int, again: bool) returns (e: Option<Extent>)
      ensures e == Asked(answers, n, again, Entry(table, n))
    {
      e := if n in table && answers.query(n, again) then Some(table[n]) else None;
    }
  }

  // ---- what becomes of one number ------------------------------------------------------------

  /** The state of one number: the kernel's entry for it, `ok` and `errnums`, and
      whether an exception was raised about it. */
  datatype Slot = Slot(entry: Option<Extent>, ok: bool, err: int, raised: bool)

  function Asked(a: Answers, n: int, again: bool, e: Option<Extent>): Option<Extent> {
    if a.query(n, again) then e else None
  }

  /** Removing with retries, from attempt `k` on. */
  function Retried(a: Answers, n: int, present: bool, k: nat): int
    decreases RETRIES - k
  {
    var err := a.remove(n, k, present);
    if err != EBUSY || k >= RETRIES then err else Retried(a, n, present, k + 1)
  }

  /** The first pass leaves alone what is unchanged or can be resized later. */
  predicate LeftAlone(p: Option<DiskPart>, e: Option<Extent>, n: int, addLimit: int, a: Answers) {
    && p.Some? && Asked(a, n, false, e).Some? && e.value.start == p.value.geom.start
    && (e.value.length == p.value.geom.length || (a.resize.Some? && n < addLimit))
  }

  function RemovePass(p: Option<DiskPart>, e: Option<Extent>, n: int, addLimit: int, a: Answers): Slot {
    if LeftAlone(p, e, n, addLimit, a) then Slot(e, true, 0, false)
    else
      var err := Retried(a, n, e.Some?, 0);
      Slot(if err == 0 then None else e, err == 0 || err == ENXIO, err, false)
  }

  predicate Found(p: DiskPart, e: Option<Extent>, n: int, a: Answers) {
    Asked(a, n, true, e).Some? && e.value.start == p.geom.start
  }

  function AddPass(p: Option<DiskPart>, s: Slot, n: int, a: Answers): Slot {
    if p.None? then s
    else if Found(p.value, s.entry, n, a) && s.entry.value.length == p.value.geom.length then s.(ok := true)
    else if Found(p.value, s.entry, n, a) && a.resize.Some? then
      if a.resize.value(n) == 0 then s.(entry := Some(p.value.told), ok := true)
      else Added(p.value, s.(raised := true), n, a)
    else Added(p.value, s, n, a)
  }

  function Added(p: DiskPart, s: Slot, n: int, a: Answers): Slot {
    if a.add(n) == 0 then s.(entry := Some(p.told)) else s.(ok := false, err := a.add(n))
  }

  /** The second pass asks the kernel to add the partition. */
  predicate AddTried(p: Option<DiskPart>, s: Slot, n: int, a: Answers) {
    p.Some? && !(Found(p.value, s.entry, n, a)
                 && (s.entry.value.length == p.value.geom.length || (a.resize.Some? && a.resize.value(n) == 0)))
  }

  predicate Reported(s: Slot) {
    !s.ok && s.err != ENXIO
  }

  function PartOf(disk: map<int, DiskPart>, n: int): Option<DiskPart> {
    if n in disk then Some(disk[n]) else None
  }

  /** After the first pass. */
  function First(disk: map<int, DiskPart>, t: Table, n: int, addLimit: int, a: Answers): Slot {
    RemovePass(PartOf(disk, n), Entry(t, n), n, addLimit, a)
  }

  /** After the second pass over the numbers up to `last`. */
  function Second(disk: map<int, DiskPart>, t: Table, n: int, addLimit: int, last: int, a: Answers): Slot {
    var s := First(disk, t, n, addLimit, a);
    if n <= last then AddPass(PartOf(disk, n), s, n, a) else s
  }

  // ---- the theorems -----------------------------------------------------------------------------

  lemma {:induction false} MissingIsMissing(a: Answers, n: int, present: bool, k: nat)
    requires a.Honest() && Retried(a, n, present, k) == ENXIO
    ensures !present
    decreases RETRIES - k
  {
    if a.remove(n, k, present) == EBUSY && k < RETRIES { MissingIsMissing(a, n, present, k + 1); }
  }

  /** What the kernel should end up with. */
  function Wanted(p: Option<DiskPart>): Option<Extent> {
    if p.None? then None else Some(p.value.geom)
  }

  /** When nothing is reported about a number, the kernel has what the disk has, unless
      it refused to add the partition as missing, which goes unreported. */
  lemma QuietMeansSynced(p: Option<DiskPart>, e: Option<Extent>, n: int, addLimit: int, a: Answers)
    requires a.Honest() && (p.Some? ==> !p.value.Extended())
    requires var s := AddPass(p, RemovePass(p, e, n, addLimit, a), n, a); !Reported(s) && !s.raised
    ensures var first := RemovePass(p, e, n, addLimit, a);
            AddPass(p, first, n, a).entry == Wanted(p) || (AddTried(p, first, n, a) && a.add(n) == ENXIO)
  {
    hide Retried;
    if Retried(a, n, e.Some?, 0) == ENXIO { MissingIsMissing(a, n, e.Some?, 0); }
  }

  /** A new partition that the kernel refuses to add as missing goes unreported. */
  lemma SilentRefusal(p: DiskPart, n: int, addLimit: int, a: Answers)
    requires a.add(n) == ENXIO && a.remove(n, 0, false) == ENXIO
    ensures var s := AddPass(Some(p), RemovePass(Some(p), None, n, addLimit, a), n, a);
            !Reported(s) && !s.raised && s.entry != Wanted(Some(p))
  {
    assert Retried(a, n, false, 0) == ENXIO;
  }

  /** When the kernel says where its partitions are, that is the only exception. */
  lemma QuietExactly(p: Option<DiskPart>, e: Option<Extent>, n: int, addLimit: int, a: Answers)
    requires a.Honest() && (p.Some? ==> !p.value.Extended()) && a.query(n, true)
    requires var s := AddPass(p, RemovePass(p, e, n, addLimit, a), n, a); !Reported(s) && !s.raised
    ensures var first := RemovePass(p, e, n, addLimit, a);
            AddPass(p, first, n, a).entry == Wanted(p) <==> !(AddTried(p, first, n, a) && a.add(n) == ENXIO)
  {
    hide Retried;
    QuietMeansSynced(p, e, n, addLimit, a);
  }

  // ---- the method -------------------------------------------------------------------------------

  predicate Settled(disk: map<int, DiskPart>, start: Table, n: int, a: Answers) {
    n in disk && n in start && start[n] == disk[n].geom && a.query(n, false) && a.query(n, true)
  }

  /** A partition whose entry was right from the start keeps it in every later state. */
  ghost predicate Undisturbed(disk: map<int, DiskPart>, start: Table, past: seq<Table>, from: nat, a: Answers) {
    forall i, n :: from <= i < |past| && Settled(disk, start, n, a) ==> Entry(past[i], n) == Entry(start, n)
  }

  /** The states from `from` on differ from `t` in number `n` at most. */
  ghost predicate Touches(past: seq<Table>, from: nat, t: Table, n: int) {
    forall i, m :: from <= i < |past| && m != n ==> Entry(past[i], m) == Entry(t, m)
  }

  method RemoveRetrying(k: Kernel, n: int) returns (err: int)
    modifies k
    ensures err == Retried(k.answers, n, n in old(k.table), 0)
    ensures k.table == if err == 0 then old(k.table) - {n} else old(k.table)
    ensures old(k.past) <= k.past && Touches(k.past, |old(k.past)|, old(k.table), n)
  {
    var attempt := 0;
    err := k.Remove(n, attempt);
    while err == EBUSY && attempt < RETRIES
      invariant 0 <= attempt <= RETRIES
      invariant err == k.answers.remove(n, attempt, n in old(k.table))
      invariant Retried(k.answers, n, n in old(k.table), 0) == Retried(k.answers, n, n in old(k.table), attempt)
      invariant k.table == if err == 0 then old(k.table) - {n} else old(k.table)
      invariant old(k.past) <= k.past && Touches(k.past, |old(k.past)|, old(k.table), n)
      decreases RETRIES - attempt
    {
      attempt := attempt + 1;
      err := k.Remove(n, attempt);
    }
  }

  /** `ok` and `errnums` hold what a slot says; the error matters only without success. */
  predicate Recorded(ok: bool, err: int, s: Slot) {
    ok == s.ok && (!s.ok ==> err == s.err)
  }

  /** One turn of the first loop. */
  method RemoveOne(k: Kernel, p: Option<DiskPart>, n: int, addLimit: int) returns (ok: bool, err: int)
    modifies k
    ensures var s := RemovePass(p, Entry(old(k.table), n), n, addLimit, k.answers);
            Entry(k.table, n) == s.entry && Recorded(ok, err, s)
    ensures forall m :: m != n ==> Entry(k.table, m) == Entry(old(k.table), m)
    ensures old(k.past) <= k.past && Touches(k.past, |old(k.past)|, old(k.table), n)
    ensures LeftAlone(p, Entry(old(k.table), n), n, addLimit, k.answers) ==> k.past == old(k.past)
  {
    if p.Some? {
      var e := k.StartAndLength(n, false);
      if e.Some? && e.value.start == p.value.geom.start
         && (e.value.length == p.value.geom.length || (k.answers.resize.Some? && n < addLimit)) {
        return true, 0;
      }
    }
    err := RemoveRetrying(k, n);
    ok := err == 0 || err == ENXIO;
  }

  /** One turn of the second loop, for a partition of the disk. */
  method AddOne(k: Kernel, p: DiskPart, n: int, ok0: bool, err0: int, ghost s: Slot) returns (ok: bool, err: int, raised: bool)
    requires Entry(k.table, n) == s.entry && Recorded(ok0, err0, s) && !s.raised
    modifies k
    ensures var r := AddPass(Some(p), s, n, k.answers);
            Entry(k.table, n) == r.entry && Recorded(ok, err, r) && raised == r.raised
    ensures forall m :: m != n ==> Entry(k.table, m) == Entry(old(k.table), m)
    ensures old(k.past) <= k.past && Touches(k.past, |old(k.past)|, old(k.table), n)
    ensures Found(p, s.entry, n, k.answers) && s.entry.value.length == p.geom.length ==> k.past == old(k.past)
  {
    ok, err, raised := ok0, err0, false;
    var e := k.StartAndLength(n, true);
    if e.Some? && e.value.start == p.geom.start {
      if e.value.length == p.geom.length { return true, err, false; }
      if k.answers.resize.Some? {
        var refused := k.Resize(n, p.told);
        if refused == 0 { return true, err, false; }
        raised := true;
      }
    }
    var refused := k.Add(n, p.told);
    if refused != 0 { ok, err := false, refused; }
  }

  /** Numbers 1 to `done` are as `slot` says, the later ones as `rest` says. */
  ghost predicate Agrees(ok: seq<bool>, errnums: seq<int>, t: Table, slot: int -> Slot, lo: int, hi: int)
    requires 0 <= lo <= hi <= |ok| == |errnums|
  {
    forall n :: lo < n <= hi ==> Entry(t, n) == slot(n).entry && Recorded(ok[n - 1], errnums[n - 1], slot(n))
  }

  ghost predicate SameOutside(t: Table, t': Table, lo: int, hi: int) {
    forall n :: !(lo < n <= hi) ==> Entry(t', n) == Entry(t, n)
  }

  ghost function FirstOf(disk: map<int, DiskPart>, t: Table, addLimit: int, a: Answers): int -> Slot {
    n => First(disk, t, n, addLimit, a)
  }

  ghost function SecondOf(disk: map<int, DiskPart>, t: Table, addLimit: int, last: int, a: Answers): int -> Slot {
    n => Second(disk, t, n, addLimit, last, a)
  }

  /** The first loop. */
  method RemoveAll(k: Kernel, disk: map<int, DiskPart>, ok: array<bool>, errnums: array<int>, addLimit: int)
    requires ok.Length == errnums.Length
    modifies k, ok, errnums
    ensures Agrees(ok[..], errnums[..], k.table, FirstOf(disk, old(k.table), addLimit, k.answers), 0, ok.Length)
    ensures SameOutside(old(k.table), k.table, 0, ok.Length)
    ensures forall m :: Settled(disk, old(k.table), m, k.answers) ==> Entry(k.table, m) == Entry(old(k.table), m)
    ensures old(k.past) <= k.past && Undisturbed(disk, old(k.table), k.past, |old(k.past)|, k.answers)
  {
    ghost var start := k.table;
    var n := 1;
    while n <= ok.Length
      invariant 1 <= n <= ok.Length + 1
      invariant Agrees(ok[..], errnums[..], k.table, FirstOf(disk, start, addLimit, k.answers), 0, n - 1)
      invariant SameOutside(start, k.table, 0, n - 1)
      invariant old(k.past) <= k.past && Undisturbed(disk, start, k.past, |old(k.past)|, k.answers)
      invariant forall m :: Settled(disk, start, m, k.answers) ==> Entry(k.table, m) == Entry(start, m)
    {
      var good, err := RemoveOne(k, PartOf(disk, n), n, addLimit);
      ok[n - 1], errnums[n - 1] := good, err;
      n := n + 1;
    }
  }

  ghost predicate Raised(slot: int -> Slot, last: int) {
    exists n :: 1 <= n <= last && slot(n).raised
  }

  /** The second loop, over the numbers up to `last`. */
  method AddAll(k: Kernel, disk: map<int, DiskPart>, ok: array<bool>, errnums: array<int>, last: nat,
                ghost start: Table, ghost addLimit: int)
    returns (raised: bool)
    requires last <= ok.Length == errnums.Length
    requires Agrees(ok[..], errnums[..], k.table, FirstOf(disk, start, addLimit, k.answers), 0, ok.Length)
    requires forall m :: Settled(disk, start, m, k.answers) ==> Entry(k.table, m) == Entry(start, m)
    modifies k, ok, errnums
    ensures Agrees(ok[..], errnums[..], k.table, SecondOf(disk, start, addLimit, last, k.answers), 0, ok.Length)
    ensures raised == Raised(SecondOf(disk, start, addLimit, last, k.answers), last)
    ensures SameOutside(old(k.table), k.table, 0, last)
    ensures old(k.past) <= k.past && Undisturbed(disk, start, k.past, |old(k.past)|, k.answers)
  {
    hide First, Second, Settled, Entry, Recorded;
    ghost var a := k.answers;
    ghost var first, second := FirstOf(disk, start, addLimit, a), SecondOf(disk, start, addLimit, last, a);
    raised := false;
    var n := 1;
    while n <= last
      invariant 1 <= n <= last + 1
      invariant Agrees(ok[..], errnums[..], k.table, second, 0, n - 1)
      invariant Agrees(ok[..], errnums[..], k.table, first, n - 1, ok.Length)
      invariant raised == Raised(second, n - 1)
      invariant SameOutside(old(k.table), k.table, 0, n - 1)
      invariant old(k.past) <= k.past && Undisturbed(disk, start, k.past, |old(k.past)|, a)
      invariant forall m :: Settled(disk, start, m, a) ==> Entry(k.table, m) == Entry(start, m)
    {
      assert Entry(k.table, n) == first(n).entry && Recorded(ok[..][n - 1], errnums[..][n - 1], first(n));
      ghost var before, was := k.past, k.table;
      var complaint := AddStep(k, disk, ok, errnums, n, start, addLimit, last);
      StillUndisturbed(disk, start, before, k.past, |old(k.past)|, was, n, a);
      raised := raised || complaint;
      RaisedNext(second, n);
      n := n + 1;
    }
    assert Agrees(ok[..], errnums[..], k.table, second, last, ok.Length) by { SecondIsFirst(disk, start, addLimit, last, a); }
  }

  lemma SecondIsFirst(disk: map<int, DiskPart>, start: Table, addLimit: int, last: int, a: Answers)
    ensures forall n :: n > last ==> First(disk, start, n, addLimit, a) == Second(disk, start, n, addLimit, last, a)
  {
  }

  lemma StillUndisturbed(disk: map<int, DiskPart>, start: Table, past: seq<Table>, past': seq<Table>, from: nat, t: Table, n: int, a: Answers)
    requires past <= past' && Undisturbed(disk, start, past, from, a) && Touches(past', |past|, t, n)
    requires forall m :: Settled(disk, start, m, a) ==> Entry(t, m) == Entry(start, m)
    requires Settled(disk, start, n, a) ==> past' == past
    ensures Undisturbed(disk, start, past', from, a)
  {
    hide Settled, Entry;
    forall i, m | from <= i < |past'| && Settled(disk, start, m, a) ensures Entry(past'[i], m) == Entry(start, m) {
      if i < |past| { assert past'[i] == past[i]; }
    }
  }

  /** One turn of the second loop. */
  method AddStep(k: Kernel, disk: map<int, DiskPart>, ok: array<bool>, errnums: array<int>, n: int,
                 ghost start: Table, ghost addLimit: int, ghost last: int)
    returns (complaint: bool)
    requires 1 <= n <= last && n <= ok.Length == errnums.Length
    requires var s := First(disk, start, n, addLimit, k.answers); Entry(k.table, n) == s.entry && Recorded(ok[n - 1], errnums[n - 1], s)
    requires Settled(disk, start, n, k.answers) ==> Entry(k.table, n) == Entry(start, n)
    modifies k, ok, errnums
    ensures var s := Second(disk, start, n, addLimit, last, k.answers);
            Entry(k.table, n) == s.entry && Recorded(ok[n - 1], errnums[n - 1], s) && complaint == s.raised
    ensures forall i :: 0 <= i < ok.Length && i != n - 1 ==> ok[i] == old(ok[i]) && errnums[i] == old(errnums[i])
    ensures forall m :: m != n ==> Entry(k.table, m) == Entry(old(k.table), m)
    ensures old(k.past) <= k.past && Touches(k.past, |old(k.past)|, old(k.table), n)
    ensures Settled(disk, start, n, k.answers) ==> k.past == old(k.past) && Entry(k.table, n) == Entry(start, n)
  {
    hide First, Second, AddPass, Recorded, Settled;
    complaint := false;
    ghost var s := First(disk, start, n, addLimit, k.answers);
    SlotStep(disk, start, n, addLimit, last, k.answers);
    if n in disk {
      var good, err;
      good, err, complaint := AddOne(k, disk[n], n, ok[n - 1], errnums[n - 1], s);
      ok[n - 1], errnums[n - 1] := good, err;
    }
  }

  lemma SlotStep(disk: map<int, DiskPart>, start: Table, n: int, addLimit: int, last: int, a: Answers)
    requires n <= last
    ensures var s := First(disk, start, n, addLimit, a);
            && !s.raised && Second(disk, start, n, addLimit, last, a) == AddPass(PartOf(disk, n), s, n, a)
            && (n !in disk ==> Second(disk, start, n, addLimit, last, a) == s)
            && (n in disk ==> PartOf(disk, n) == Some(disk[n]))
            && (Settled(disk, start, n, a) && s.entry == Entry(start, n) ==>
                  Found(disk[n], s.entry, n, a) && s.entry.value.length == disk[n].geom.length
                  && Second(disk, start, n, addLimit, last, a).entry == s.entry)
  {
  }

  lemma RaisedNext(slot: int -> Slot, n: int)
    requires n >= 1
    ensures Raised(slot, n) <==> Raised(slot, n - 1) || slot(n).raised
  {
  }

  ghost predicate AnyReported(slot: int -> Slot, last: int) {
    exists n :: 1 <= n <= last && Reported(slot(n))
  }

  /** The loop that collects the numbers to warn about. */
  method AnyBad(ok: array<bool>, errnums: array<int>, last: nat, ghost t: Table, ghost slot: int -> Slot) returns (bad: bool)
    requires last <= ok.Length == errnums.Length && Agrees(ok[..], errnums[..], t, slot, 0, ok.Length)
    ensures bad == AnyReported(slot, last)
  {
    bad := false;
    for n := 1 to last + 1
      invariant bad == AnyReported(slot, n - 1)
    {
      assert Recorded(ok[..][n - 1], errnums[..][n - 1], slot(n));
      if !ok[n - 1] && errnums[n - 1] != ENXIO { bad := true; }
    }
  }

  /** The largest number to remove and the largest to add. */
  function RemoveLimit(supported: Option<int>, range: int): int {
    if supported.Some? && supported.value > range then supported.value else range
  }

  function AddLimit(supported: Option<int>, range: int): int {
    if supported.Some? && supported.value < range then supported.value else range
  }

  /** Nothing else stands in the way of the kernel having what the disk has. */
  predicate Heard(disk: map<int, DiskPart>, t: Table, n: int, addLimit: int, a: Answers) {
    && (n in disk ==> !disk[n].Extended())
    && !(AddTried(PartOf(disk, n), First(disk, t, n, addLimit, a), n, a) && a.add(n) == ENXIO)
  }

  ghost predicate Synced(disk: map<int, DiskPart>, t: Table, t': Table, addLimit: int, a: Answers) {
    forall n :: 1 <= n <= addLimit && Heard(disk, t, n, addLimit, a) ==> Entry(t', n) == Wanted(PartOf(disk, n))
  }

  lemma QuietAll(disk: map<int, DiskPart>, t: Table, t': Table, addLimit: int, a: Answers)
    requires a.Honest()
    requires var slot := SecondOf(disk, t, addLimit, addLimit, a);
             && !AnyReported(slot, addLimit) && !Raised(slot, addLimit)
             && forall n :: 1 <= n <= addLimit ==> Entry(t', n) == slot(n).entry
    ensures Synced(disk, t, t', addLimit, a)
  {
    hide RemovePass, AddPass, Reported, AddTried;
    forall n | 1 <= n <= addLimit && Heard(disk, t, n, addLimit, a) ensures Entry(t', n) == Wanted(PartOf(disk, n)) {
      var slot := SecondOf(disk, t, addLimit, addLimit, a);
      assert slot(n) == Second(disk, t, n, addLimit, addLimit, a);
      assert !Reported(slot(n)) && !slot(n).raised;
      QuietMeansSynced(PartOf(disk, n), Entry(t, n), n, addLimit, a);
    }
  }

  /** `_disk_sync_part_table`, with `supported` the label's limit, `range` the device's,
      and exceptions never answered "ignore".  Success means that every number up to
      the limit for adding, extended ones aside, has become what the disk has. */
  method SyncPartTable(k: Kernel, disk: map<int, DiskPart>, supported: Option<int>, range: int, isLoop: bool)
    returns (ret: bool, raised: bool)
    modifies k
    ensures var top, addLimit := RemoveLimit(supported, range), AddLimit(supported, range);
            var last := if isLoop || addLimit < 0 then 0 else addLimit;
            var slot := SecondOf(disk, old(k.table), addLimit, last, k.answers);
            if top < 1 then !ret && !raised && k.table == old(k.table)
            else
              && (forall n :: 1 <= n <= top ==> Entry(k.table, n) == slot(n).entry)
              && SameOutside(old(k.table), k.table, 0, top)
              && ret == !AnyReported(slot, last)
              && raised == (AnyReported(slot, last) || Raised(slot, last))
    ensures ret && !raised && !isLoop && k.answers.Honest() ==>
              Synced(disk, old(k.table), k.table, AddLimit(supported, range), k.answers)
    ensures old(k.past) <= k.past && Undisturbed(disk, old(k.table), k.past, |old(k.past)|, k.answers)
  {
    hide First, Second, RemovePass, AddPass, Settled, Heard, Recorded;
    var top, addLimit := RemoveLimit(supported, range), AddLimit(supported, range);
    if top < 1 { return false, false; }
    var ok := new bool[top];
    var errnums := new int[top];
    RemoveAll(k, disk, ok, errnums, addLimit);
    var last := if isLoop || addLimit < 0 then 0 else addLimit;
    raised := AddAll(k, disk, ok, errnums, last, old(k.table), addLimit);
    var bad := AnyBad(ok, errnums, last, k.table, SecondOf(disk, old(k.table), addLimit, last, k.answers));
    ret, raised := !bad, raised || bad;
    if ret && !raised && !isLoop && addLimit >= 0 && k.answers.Honest() {
      QuietAll(disk, old(k.table), k.table, addLimit, k.answers);
    }
  }
}
