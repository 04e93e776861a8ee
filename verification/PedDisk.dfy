/** The partition table as the object it is: `PedDisk` with its two linked lists, the
    update mode counter and the loops of libparted/disk.c that walk and change them.
    Every method is proved to have the effect that the functions of Disk.dfy and
    DiskOps.dfy give, so everything proved about those holds of the links. */
module PedDisk {
  import opened CInt
  import opened Geometry
  import A = Alignment
  import C = Constraint
  import opened PartList
  import D = Disk
  import opened LabelAlign
  import Ops = DiskOps
  import opened LinkedList

  type Disk = D.Disk
  type Ref = D.Ref
  type Env = D.Env

  // ---- walking ----------------------------------------------------------------------------------

  /** `ped_disk_next_partition` */
  function NextPartition(d: Disk, at: Option<Ref>): Option<Ref> {
    match at
    case None => if d.prims == [] then None else Some(D.Prim(0))
    case Some(Prim(k)) =>
      if k == D.ExtIndex(d.prims) && d.logs != [] then Some(D.Log(0))
      else if k + 1 < |d.prims| then Some(D.Prim(k + 1))
      else None
    case Some(Log(k)) =>
      if k + 1 < |d.logs| then Some(D.Log(k + 1))
      else if !D.HasExt(d) || D.ExtIndex(d.prims) + 1 >= |d.prims| then None
      else Some(D.Prim(D.ExtIndex(d.prims) + 1))
  }

  /** Stepping from entry to entry goes through the table in traversal order. */
  lemma StepsTraverse(d: Disk, i: nat)
    requires i <= |D.Traversal(d)|
    ensures var t := D.Traversal(d);
            NextPartition(d, if i == 0 then None else Some(t[i - 1])) == if i < |t| then Some(t[i]) else None
  {
    var t, e := D.Traversal(d), D.ExtIndex(d.prims);
    if e >= 0 {
      assert |t| == |d.prims| + |d.logs|;
    }
  }

  /** The first walk of `_log_meta_overlap_constraint`. */
  method PastTables(list: Chain, p: Part, part: Node?, min0: int, ghost skip: int) returns (walk: Node?, minStart: int, ghost i: nat)
    requires list.Valid() && Marks(list.nodes, part, skip)
    ensures i <= |list.nodes| && walk == At(list.nodes, i)
    ensures MetaWalk(list.Parts(), skip, p.num, p.geom.start, 0, min0) == (i, minStart)
  {
    hide Linked, PartsOf, Chain.Parts, Marks;
    var not5 := D.Not5(p.num);
    minStart, walk, i := min0, list.head, 0;
    ghost var s, nodes := list.Parts(), list.nodes;
    HeadIs(list.head, nodes);
    while walk != null && (walk.part.geom.start - D.Not5(walk.part.num) < p.geom.start - not5
                           || walk.part.geom.start - D.Not5(walk.part.num) <= minStart)
      invariant 0 <= i <= |nodes| && walk == At(nodes, i)
      invariant MetaWalk(s, skip, p.num, p.geom.start, 0, min0) == MetaWalk(s, skip, p.num, p.geom.start, i, minStart)
      decreases |nodes| - i
    {
      NextIs(list.head, nodes, i);
      MarksAt(list.head, nodes, part, skip, i);
      if walk != part && walk.part.kind.Active() { minStart := walk.part.geom.end + 1 + not5; }
      walk := walk.next;
      i := i + 1;
    }
  }

  /** Its second walk. */
  method NextActive(list: Chain, from: Node?, part: Node?, ghost i: nat, ghost skip: int) returns (walk: Node?, ghost j: nat)
    requires list.Valid() && Marks(list.nodes, part, skip) && i <= |list.nodes| && from == At(list.nodes, i)
    ensures j == MetaNext(list.Parts(), skip, i) && walk == At(list.nodes, j)
  {
    hide Linked, PartsOf, Chain.Parts, Marks;
    walk, j := from, i;
    ghost var s, nodes := list.Parts(), list.nodes;
    while walk != null && (walk == part || !walk.part.kind.Active())
      invariant i <= j <= |nodes| && walk == At(nodes, j) && MetaNext(s, skip, i) == MetaNext(s, skip, j)
      decreases |nodes| - j
    {
      NextIs(list.head, nodes, j);
      MarksAt(list.head, nodes, part, skip, j);
      walk := walk.next;
      j := j + 1;
    }
    if walk != null { MarksAt(list.head, nodes, part, skip, j); }
  }

  // ---- the object -----------------------------------------------------------------------------------

  /** `logList` is the `part_list` of the extended partition. */
  class PedDisk {
    const len: int
    const primList: Chain
    const logList: Chain
    var mode: nat
    var clobber: bool
    ghost var primObjects: set<object>
    ghost var logObjects: set<object>

    ghost predicate Valid()
      reads this, primObjects, logObjects
    {
      && this !in primObjects && this !in logObjects && primObjects !! logObjects
      && primList in primObjects && logList in logObjects
      && (forall j :: 0 <= j < |primList.nodes| ==> primList.nodes[j] in primObjects)
      && (forall j :: 0 <= j < |logList.nodes| ==> logList.nodes[j] in logObjects)
      && primList.Valid() && logList.Valid()
    }

    ghost function Now(): Disk
      requires Valid()
      reads this, primObjects, logObjects
    {
      D.Disk(len, primList.Parts(), logList.Parts(), mode, clobber)
    }

    /** `_ped_disk_alloc` */
    constructor (len: int)
      ensures Valid() && fresh(primObjects) && fresh(logObjects) && Now() == D.Disk(len, [], [], 1, false)
    {
      this.len, mode, clobber := len, 1, false;
      var p := new Chain();
      var l := new Chain();
      primList, logList, primObjects, logObjects := p, l, {p}, {l};
    }

    /** The values of all entries, read along `next`. */
    method Look() returns (d: Disk)
      requires Valid()
      ensures d == Now()
    {
      var p := primList.Values();
      var l := logList.Values();
      d := D.Disk(len, p, l, mode, clobber);
    }

    /** `_disk_raw_add` */
    method RawAdd(p: Part)
      requires Valid()
      modifies this`primObjects, this`logObjects, primObjects, logObjects
      ensures Valid() && fresh(primObjects - old(primObjects)) && fresh(logObjects - old(logObjects))
      ensures Now() == D.RawAdd(old(Now()), p)
    {
      hide Linked, PartsOf, Chain.Parts, Insert;
      if p.kind.InExtended() {
        var n := logList.AddPart(p);
        logObjects := logObjects + {n};
      } else {
        var n := primList.AddPart(p);
        primObjects := primObjects + {n};
      }
    }

    ghost function NodeOf(ref: Ref): Node
      requires Valid() && D.RefOk(Now(), ref)
      reads this, primObjects, logObjects
    {
      match ref
      case Prim(k) => primList.nodes[k]
      case Log(k) => logList.nodes[k]
    }

    method NodeAt(ref: Ref) returns (n: Node)
      requires Valid() && D.RefOk(Now(), ref)
      ensures n == NodeOf(ref)
    {
      hide Linked, PartsOf;
      match ref
      case Prim(k) => n := primList.NodeAt(k);
      case Log(k) => n := logList.NodeAt(k);
    }

    /** `_disk_raw_remove` */
    method RawRemove(ref: Ref)
      requires Valid() && D.RefOk(Now(), ref)
      modifies primObjects, logObjects
      ensures unchanged(this) && Valid() && Now() == D.RawRemove(old(Now()), ref)
    {
      hide Linked, PartsOf, RemoveAt;
      match ref
      case Prim(k) => RemovePrimary(k);
      case Log(k) => RemoveLogical(k);
    }

    method RemovePrimary(k: nat)
      requires Valid() && k < |primList.nodes|
      modifies primObjects
      ensures unchanged(this) && Valid() && Now() == old(Now()).(prims := RemoveAt(old(Now()).prims, k))
    {
      hide Linked, PartsOf, Chain.Parts, RemoveAt, Without;
      var n := primList.NodeAt(k);
      primList.RemovePart(n, k);
    }

    method RemoveLogical(k: nat)
      requires Valid() && k < |logList.nodes|
      modifies logObjects
      ensures unchanged(this) && Valid() && Now() == old(Now()).(logs := RemoveAt(old(Now()).logs, k))
    {
      hide Linked, PartsOf, Chain.Parts, RemoveAt, Without;
      var n := logList.NodeAt(k);
      logList.RemovePart(n, k);
    }

    method SetPart(ref: Ref, p: Part)
      requires Valid() && D.RefOk(Now(), ref)
      modifies primObjects, logObjects
      ensures unchanged(this) && Valid() && Now() == D.SetPart(old(Now()), ref, p)
    {
      hide Linked, PartsOf, Chain.Parts;
      var n := NodeAt(ref);
      match ref
      case Prim(k) => primList.SetAt(n, p, k);
      case Log(k) => logList.SetAt(n, p, k);
    }

    /** `ped_disk_next_partition`, from entry to entry along the links. */
    method Next(at: Option<Ref>, from: Node?) returns (r: Option<Ref>, n: Node?)
      requires Valid() && (at.Some? ==> D.RefOk(Now(), at.value) && from == NodeOf(at.value))
      ensures r == NextPartition(Now(), at)
      ensures r.Some? ==> D.RefOk(Now(), r.value) && n == NodeOf(r.value)
    {
      hide Linked, PartsOf;
      match at
      case None =>
        HeadIs(primList.head, primList.nodes);
        return if primList.head == null then None else Some(D.Prim(0)), primList.head;
      case Some(Prim(k)) => r, n := NextPrimary(k, from);
      case Some(Log(k)) => r, n := NextLogical(k, from);
    }

    method NextPrimary(k: nat, from: Node) returns (r: Option<Ref>, n: Node?)
      requires Valid() && k < |primList.nodes| && from == primList.nodes[k]
      ensures r == NextPartition(Now(), Some(D.Prim(k)))
      ensures r.Some? ==> D.RefOk(Now(), r.value) && n == NodeOf(r.value)
    {
      hide Linked, PartsOf;
      HeadIs(logList.head, logList.nodes);
      NextIs(primList.head, primList.nodes, k);
      var _, e := primList.Extended();
      if k == e && logList.head != null { return Some(D.Log(0)), logList.head; }
      return if from.next == null then None else Some(D.Prim(k + 1)), from.next;
    }

    method NextLogical(k: nat, from: Node) returns (r: Option<Ref>, n: Node?)
      requires Valid() && k < |logList.nodes| && from == logList.nodes[k]
      ensures r == NextPartition(Now(), Some(D.Log(k)))
      ensures r.Some? ==> D.RefOk(Now(), r.value) && n == NodeOf(r.value)
    {
      hide Linked, PartsOf;
      NextIs(logList.head, logList.nodes, k);
      if from.next != null { return Some(D.Log(k + 1)), from.next; }
      var ext, e := primList.Extended();
      if ext == null { return None, null; }
      NextIs(primList.head, primList.nodes, e);
      return if ext.next == null then None else Some(D.Prim(e + 1)), ext.next;
    }

    /** `ped_disk_get_partition` */
    method GetPartition(num: int) returns (r: Option<Ref>)
      requires Valid() && forall i :: 0 <= i < |D.Traversal(Now())| ==> D.RefOk(Now(), D.Traversal(Now())[i])
      ensures r == D.FindNum(Now(), D.Traversal(Now()), num)
      ensures r.Some? ==> D.RefOk(Now(), r.value)
    {
      hide D.Traversal, PedDisk.Valid, PedDisk.NodeOf, PedDisk.Now, NextPartition;
      ghost var d := Now();
      ghost var t, i := D.Traversal(d), 0;
      StepsTraverse(d, 0);
      var n;
      r, n := Next(None, null);
      assert t[0..] == t;
      while r.Some?
        invariant 0 <= i <= |t| && r == (if i < |t| then Some(t[i]) else None) && (r.Some? ==> n == NodeOf(r.value))
        invariant D.FindNum(d, t, num) == D.FindNum(d, t[i..], num)
        decreases |t| - i
      {
        NodePart(r.value);
        if n.part.num == num && !n.part.kind.IsFree() { return; }
        assert t[i..][1..] == t[i + 1..];
        i := i + 1;
        StepsTraverse(d, i);
        r, n := Next(r, n);
      }
      assert t[i..] == [];
    }

    lemma NodePart(ref: Ref)
      requires Valid() && D.RefOk(Now(), ref)
      ensures NodeOf(ref).part == D.PartAt(Now(), ref)
    {
    }

    /** `_disk_remove_freespace` */
    method RemoveFreespace()
      requires Valid()
      modifies primObjects, logObjects
      ensures unchanged(this) && Valid()
      ensures Now() == old(Now()).(prims := D.DropFree(old(Now()).prims), logs := D.DropFree(old(Now()).logs))
    {
      hide PedDisk.Valid, PedDisk.Now, D.DropFree;
      DropPrimary();
      DropLogical();
    }

    method DropPrimary()
      requires Valid()
      modifies primObjects
      ensures unchanged(this) && Valid() && Now() == old(Now()).(prims := D.DropFree(old(Now()).prims))
    {
      hide Linked, PartsOf, Chain.Parts, D.DropFree;
      primList.RemoveFree();
    }

    method DropLogical()
      requires Valid()
      modifies logObjects
      ensures unchanged(this) && Valid() && Now() == old(Now()).(logs := D.DropFree(old(Now()).logs))
    {
      hide Linked, PartsOf, Chain.Parts, D.DropFree;
      logList.RemoveFree();
    }

    /** `_disk_alloc_freespace` */
    method AllocFreespace()
      requires Valid()
      modifies this`primObjects, this`logObjects, primObjects, logObjects
      ensures Valid() && fresh(primObjects - old(primObjects)) && fresh(logObjects - old(logObjects))
      ensures Now() == D.AllocFree(old(Now()))
    {
      hide PedDisk.Valid, PedDisk.Now, FillFree, D.DropFree;
      var ext, k := ExtendedAt();
      if ext.Some? { FillLogical(ext.value); }
      FillPrimary();
    }

    method ExtendedAt() returns (g: Option<Geom>, k: int)
      requires Valid()
      ensures k == D.ExtIndex(Now().prims) && g == if k >= 0 then Some(D.ExtPart(Now()).geom) else None
    {
      hide Linked, PartsOf;
      var n;
      n, k := primList.Extended();
      g := if n == null then None else Some(n.part.geom);
    }

    method FillPrimary()
      requires Valid()
      modifies this`primObjects, primObjects
      ensures Valid() && fresh(primObjects - old(primObjects)) && logObjects == old(logObjects)
      ensures Now() == old(Now()).(prims := FillFree(D.DropFree(old(Now()).prims), -1, old(Now()).len - 1, Free))
    {
      hide Linked, PartsOf, Chain.Parts, FillFree, D.DropFree;
      ghost var extra := primList.Refill(-1, len - 1, Free);
      primObjects := primObjects + extra;
    }

    /** `_alloc_extended_freespace` */
    method FillLogical(ext: Geom)
      requires Valid()
      modifies this`logObjects, logObjects
      ensures Valid() && fresh(logObjects - old(logObjects)) && primObjects == old(primObjects)
      ensures Now() == old(Now()).(logs := FillFree(D.DropFree(old(Now()).logs), ext.start, ext.end, LogicalFree))
    {
      hide Linked, PartsOf, Chain.Parts, FillFree, D.DropFree;
      ghost var extra := logList.Refill(ext.start, ext.end, LogicalFree);
      logObjects := logObjects + extra;
    }

    // ---- numbers -----------------------------------------------------------------------------------

    method IsUsed(num: int) returns (r: bool)
      requires Valid()
      ensures r == D.NumUsed(Now(), num)
    {
      hide Linked, PartsOf;
      var _, k := primList.Numbered(num);
      var _, l := logList.Numbered(num);
      return k >= 0 || l >= 0;
    }

    /** The search loops of `next_primary`, `next_logical` and `bsd_partition_enumerate`. */
    method NextFreeNumber(lo: int, max: int) returns (n: int)
      requires Valid()
      ensures n == D.NextFree(Now(), lo, max)
    {
      hide PedDisk.Valid, D.NumUsed;
      var i := lo;
      while i <= max
        invariant D.NextFree(Now(), lo, max) == D.NextFree(Now(), i, max)
        decreases max - i
      {
        var used := IsUsed(i);
        if !used { return i; }
        i := i + 1;
      }
      return UNNUMBERED;
    }

    /** `msdos_partition_enumerate` and `bsd_partition_enumerate` for a number that was
        cleared in the table if the partition is in it. */
    method NumberFor(p: Part, env: Env) returns (n: Option<int>)
      requires Valid()
      ensures n == D.EnumNum(Now(), env, p)
    {
      hide PedDisk.Valid, D.NextFree;
      var m;
      if env.scheme.Bsd? {
        if p.num != UNNUMBERED { m := p.num; } else { m := NextFreeNumber(1, D.BSD_MAXPARTITIONS); }
      } else if p.num != UNNUMBERED && p.num <= D.DOS_N_PRI_PARTITIONS {
        m := p.num;
      } else if p.kind.InExtended() {
        m := NextFreeNumber(5, D.MAX_TOTAL_PART);
      } else {
        m := NextFreeNumber(1, D.DOS_N_PRI_PARTITIONS);
      }
      return if m == UNNUMBERED then None else Some(m);
    }

    /** `_partition_enumerate` on a partition in the table. */
    method EnumeratePart(ref: Ref, env: Env) returns (ok: bool)
      requires Valid() && D.RefOk(Now(), ref)
      modifies primObjects, logObjects
      ensures unchanged(this) && Valid() && (Now(), ok) == D.EnumerateAt(old(Now()), env, ref)
    {
      hide PedDisk.Valid, PedDisk.Now, PedDisk.NodeOf, D.EnumNum;
      var n := NodeAt(ref);
      NodePart(ref);
      var p := n.part;
      SetPart(ref, p.(num := UNNUMBERED));
      var m := NumberFor(p, env);
      if m.None? { return false; }
      SetPart(ref, p.(num := m.value));
      SetTwice(old(Now()), ref, p.(num := UNNUMBERED), p.(num := m.value));
      return true;
    }

    /** `ped_disk_get_last_partition_num` */
    method LastNumber() returns (n: int)
      requires Valid()
      ensures n == Max(D.LastNum(Now().prims), if D.HasExt(Now()) then D.LastNum(Now().logs) else UNNUMBERED)
    {
      hide Linked, PartsOf, D.LastNum;
      n := primList.LastNum();
      var _, k := primList.Extended();
      if k >= 0 {
        var m := logList.LastNum();
        n := Max(n, m);
      }
    }

    /** `ped_disk_enumerate_partitions` */
    method EnumeratePartitions(env: Env)
      requires Valid()
      modifies primObjects, logObjects
      ensures unchanged(this) && Valid() && Now() == D.EnumerateAll(old(Now()), env)
    {
      hide PedDisk.Valid, PedDisk.Now, D.Traversal, D.EnumerateAt, D.FindNum, D.LastNum, D.NumberRest;
      var last := LastNumber();
      var i := 1;
      while i <= last
        invariant unchanged(this) && 1 <= i && Valid() && D.Renumber(old(Now()), env, 1, last) == D.Renumber(Now(), env, i, last)
        decreases last - i
      {
        D.TraversalOk(Now());
        var ref := GetPartition(i);
        if ref.Some? {
          D.TraversalMember(Now(), ref.value);
          var ok := EnumeratePart(ref.value, env);
          if !ok { return; }
        }
        i := i + 1;
      }
      D.TraversalOk(Now());
      NumberTheRest(env);
    }

    /** The loop that numbers the partitions without a number. */
    method NumberTheRest(env: Env)
      requires Valid() && forall i :: 0 <= i < |D.Traversal(Now())| ==> D.RefOk(Now(), D.Traversal(Now())[i])
      modifies primObjects, logObjects
      ensures unchanged(this) && Valid() && Now() == D.NumberRest(old(Now()), env, D.Traversal(old(Now())))
    {
      hide PedDisk.Valid, PedDisk.Now, PedDisk.NodeOf, D.Traversal, D.EnumerateAt, NextPartition;
      ghost var t, j := D.Traversal(Now()), 0;
      StepsTraverse(Now(), 0);
      assert t[0..] == t;
      var ref, n := Next(None, null);
      while ref.Some?
        invariant unchanged(this) && Valid()
        invariant 0 <= j <= |t| && D.Traversal(Now()) == t && ref == (if j < |t| then Some(t[j]) else None)
        invariant forall i :: 0 <= i < |t| ==> D.RefOk(Now(), t[i])
        invariant ref.Some? ==> n == NodeOf(ref.value)
        invariant D.NumberRest(old(Now()), env, t) == D.NumberRest(Now(), env, t[j..])
        decreases |t| - j
      {
        NodePart(ref.value);
        assert t[j..][0] == t[j] && t[j..][1..] == t[j + 1..];
        if n.part.kind.Active() && n.part.num == UNNUMBERED {
          EnumerateKeepsOrder(Now(), env, ref.value);
          ghost var d := Now();
          var ok := EnumeratePart(ref.value, env);
          RefsStay(d, Now(), t);
          if !ok { return; }
          n := NodeAt(ref.value);
        }
        j := j + 1;
        StepsTraverse(Now(), j);
        ref, n := Next(ref, n);
      }
      assert t[j..] == [];
    }

    // ---- update mode ---------------------------------------------------------------------------------

    /** The first placeholder for metadata in walking order. */
    method NextMeta() returns (r: Option<Ref>)
      requires Valid() && forall i :: 0 <= i < |D.Traversal(Now())| ==> D.RefOk(Now(), D.Traversal(Now())[i])
      ensures r == D.FirstMeta(Now(), D.Traversal(Now()))
    {
      hide PedDisk.Valid, PedDisk.NodeOf, PedDisk.Now, D.Traversal, NextPartition;
      ghost var d := Now();
      ghost var t, i := D.Traversal(d), 0;
      StepsTraverse(d, 0);
      var n;
      r, n := Next(None, null);
      assert t[0..] == t;
      while r.Some?
        invariant 0 <= i <= |t| && r == (if i < |t| then Some(t[i]) else None) && (r.Some? ==> n == NodeOf(r.value))
        invariant D.FirstMeta(d, t) == D.FirstMeta(d, t[i..])
        decreases |t| - i
      {
        NodePart(r.value);
        if n.part.kind.IsMeta() { return; }
        assert t[i..][1..] == t[i + 1..];
        i := i + 1;
        StepsTraverse(d, i);
        r, n := Next(r, n);
      }
      assert t[i..] == [];
    }

    /** `_disk_remove_metadata`, in update mode. */
    method RemoveMetadata(env: Env)
      requires Valid()
      modifies primObjects, logObjects
      ensures unchanged(this) && Valid() && Now() == D.DropMeta(old(Now()), env)
    {
      hide PedDisk.Valid, PedDisk.Now, D.Traversal, D.EnumerateAll, D.FirstMeta;
      D.TraversalOk(Now());
      var ref := NextMeta();
      while ref.Some?
        invariant unchanged(this) && Valid() && D.DropMeta(old(Now()), env) == D.DropMeta(Now(), env)
        invariant forall i :: 0 <= i < |D.Traversal(Now())| ==> D.RefOk(Now(), D.Traversal(Now())[i])
        invariant ref == D.FirstMeta(Now(), D.Traversal(Now()))
        decreases |Now().prims| + |Now().logs|
      {
        D.TraversalMember(Now(), ref.value);
        RawRemove(ref.value);
        EnumeratePartitions(env);
        D.TraversalOk(Now());
        ref := NextMeta();
      }
    }

    /** `_disk_push_update_mode` */
    method PushUpdateMode(env: Env)
      requires Valid()
      modifies this`mode, primObjects, logObjects
      ensures primObjects == old(primObjects) && logObjects == old(logObjects)
      ensures Valid() && Now() == D.Push(old(Now()), env)
    {
      hide D.DropMeta, D.DropFree, Linked, PartsOf;
      if mode == 0 {
        RemoveFreespace();
        mode := mode + 1;
        RemoveMetadata(env);
      } else {
        mode := mode + 1;
      }
    }

    /** `ped_disk_add_partition` of a placeholder. */
    method AddPlaceholder(kind: Kind, start: int, end: int) returns (ok: bool)
      requires Valid() && kind.IsMeta()
      modifies this`primObjects, this`logObjects, primObjects, logObjects
      ensures Valid() && fresh(primObjects - old(primObjects)) && fresh(logObjects - old(logObjects))
      ensures var r := D.AddMeta(old(Now()), kind, start, end);
              ok == r.Some? && Now() == if ok then r.value else old(Now())
    {
      hide PedDisk.Valid;
      var g := Geom(start, end);
      var ext, k := ExtendedAt();
      if start > end { return false; }
      if kind.InExtended() && !(ext.Some? && ext.value.Encloses(g)) { return false; }
      if !kind.InExtended() && ext.Some? && ext.value.Encloses(g) { return false; }
      if end >= len { return false; }
      RawAdd(Placeholder(kind, start, end));
      return true;
    }

    /** `add_startend_metadata` */
    method AddStartEnd(env: Env, cylinderAlign: bool) returns (ok: bool)
      requires Valid() && env.bios.Valid()
      modifies this`primObjects, this`logObjects, primObjects, logObjects
      ensures Valid() && fresh(primObjects - old(primObjects)) && fresh(logObjects - old(logObjects))
      ensures D.AddStartEnd(old(Now()), env, cylinderAlign) == if ok then D.Allocated(Now()) else D.Stopped(Now())
    {
      hide PedDisk.Valid, PedDisk.Now, D.AddMeta, D.InitEnd, D.FinalStart;
      var d := Look();
      var initEnd, finalStart := D.InitEnd(d, env), D.FinalStart(d, env, cylinderAlign);
      if 0 < initEnd && initEnd <= d.len {
        ok := AddPlaceholder(Meta, 0, initEnd);
        if !ok { return; }
        MetaLen(old(Now()), Meta, 0, initEnd);
      }
      if finalStart < d.len - 1 && initEnd < finalStart {
        ok := AddPlaceholder(Meta, finalStart, d.len - 1);
        return;
      }
      return true;
    }

    /** The placeholder before one logical partition. */
    method AddLogicalTable(bios: D.Bios, n: Node, k: nat) returns (r: D.Alloc)
      requires Valid() && bios.Valid() && D.HasExt(Now()) && k < |logList.nodes| && n == logList.nodes[k]
      modifies this`primObjects, this`logObjects, primObjects, logObjects
      ensures Valid() && fresh(primObjects - old(primObjects)) && fresh(logObjects - old(logObjects))
      ensures r == D.AddLogMeta(old(Now()), bios, k) && (r.AssertFails? || r.disk == Now())
    {
      hide Linked, PartsOf, D.AddMeta, D.ExtIndex;
      D.CylinderPositive(bios);
      PrevIs(logList.head, logList.nodes, k);
      var ext, _ := ExtendedAt();
      var x := n.part;
      var start := Max(A.RoundDownTo(x.geom.start - 1, bios.CylinderSize()),
                       if n.prev != null then n.prev.part.geom.end + 1 else ext.value.start + 1);
      var length := x.geom.start - start;
      assert start == D.LogMetaStart(Now(), bios, k);
      var d := Look();
      if x.num == 5 && length < bios.sectors { return D.Allocated(d); }
      if length <= 0 { return D.AssertFails; }
      var ok := AddPlaceholder(LogicalMeta, start, x.geom.start - 1);
      d := Look();
      return if ok then D.Allocated(d) else D.Stopped(d);
    }

    /** The loop of `msdos_alloc_metadata` over the logical partitions. */
    method AddLogicalMetadata(env: Env) returns (r: D.Alloc)
      requires Valid() && env.Valid() && D.HasExt(Now())
      modifies this`primObjects, this`logObjects, primObjects, logObjects
      ensures Valid() && fresh(primObjects - old(primObjects)) && fresh(logObjects - old(logObjects))
      ensures r == D.AddLogMetas(old(Now()), env, 5) && (r.AssertFails? || r.disk == Now())
    {
      hide PedDisk.Valid, PedDisk.Now, PedDisk.IsLogical, D.AddLogMeta, D.NumIndex, D.ExtIndex;
      var i := 5;
      var n, k := LogicalNumbered(i);
      var d := Look();
      while k >= 0 && i <= D.MAX_TOTAL_PART
        invariant Valid() && fresh(primObjects - old(primObjects)) && fresh(logObjects - old(logObjects))
        invariant 5 <= i && D.HasExt(Now()) && k == D.NumIndex(Now().logs, i) && d == Now()
        invariant k >= 0 ==> n != null && IsLogical(n, k)
        invariant D.AddLogMetas(old(Now()), env, 5) == D.AddLogMetas(Now(), env, i)
        decreases D.MAX_TOTAL_PART - i
      {
        r := CallLogicalTable(env.probe(D.ExtPart(d)), n, k);
        if !r.Allocated? { return; }
        i := i + 1;
        n, k := LogicalNumbered(i);
        d := Look();
      }
      return D.Allocated(d);
    }

    /** `n` is the logical entry at `k`. */
    ghost predicate IsLogical(n: Node?, k: int)
      requires Valid()
      reads this, primObjects, logObjects
    {
      0 <= k < |logList.nodes| && n == logList.nodes[k]
    }

    method LogicalNumbered(num: int) returns (n: Node?, k: int)
      requires Valid()
      ensures k == D.NumIndex(Now().logs, num) && (k >= 0 ==> n != null && IsLogical(n, k))
    {
      hide Linked, PartsOf;
      n, k := logList.Numbered(num);
    }

    method CallLogicalTable(bios: D.Bios, n: Node, k: nat) returns (r: D.Alloc)
      requires Valid() && bios.Valid() && D.HasExt(Now()) && IsLogical(n, k) && k < |Now().logs|
      modifies this`primObjects, this`logObjects, primObjects, logObjects
      ensures Valid() && fresh(primObjects - old(primObjects)) && fresh(logObjects - old(logObjects))
      ensures r == D.AddLogMeta(old(Now()), bios, k) && (r.AssertFails? || r.disk == Now())
      ensures !r.AssertFails? ==> D.HasExt(Now())
    {
      hide Linked, PartsOf, D.AddLogMeta, PedDisk.Now;
      ghost var d := Now();
      r := AddLogicalTable(bios, n, k);
      LogicalStaysIn(d, bios, k);
    }

    /** `msdos_alloc_metadata` and `bsd_alloc_metadata` */
    method AllocMetadata(env: Env) returns (r: D.Alloc)
      requires Valid() && env.Valid()
      modifies this`primObjects, this`logObjects, primObjects, logObjects
      ensures Valid() && fresh(primObjects - old(primObjects)) && fresh(logObjects - old(logObjects))
      ensures r == D.AllocMeta(old(Now()), env) && (r.AssertFails? || r.disk == Now())
    {
      hide PedDisk.Valid, PedDisk.Now, D.AddMeta, D.AddStartEnd, D.AddLogMetas, D.ExtTableEnd, D.HasExt, D.ExtPart;
      match env.scheme
      case Bsd =>
        var ok := AddPlaceholder(Meta, 0, 0);
        var d := Look();
        r := if ok then D.Allocated(d) else D.Stopped(d);
      case Msdos(cylinderAlign) =>
        var ok := AddStartEnd(env, cylinderAlign);
        var d := Look();
        if !ok { return D.Stopped(d); }
        if !D.HasExt(d) { return D.Allocated(d); }
        r := AddLogicalMetadata(env);
        if !r.Allocated? { return; }
        d := Look();
        if !D.HasExt(d) { return; }
        ok := AddPlaceholder(LogicalMeta, D.ExtPart(d).geom.start, D.ExtTableEnd(d, env));
        d := Look();
        r := if ok then D.Allocated(d) else D.Stopped(d);
    }

    /** `_disk_pop_update_mode`; false stands for a failed assertion. */
    method PopUpdateMode(env: Env) returns (fine: bool)
      requires Valid() && mode > 0 && env.Valid()
      modifies this, primObjects, logObjects
      ensures Valid() && fresh(primObjects - old(primObjects)) && fresh(logObjects - old(logObjects))
      ensures fine == D.Pop(old(Now()), env).Ret? && (fine ==> Now() == D.Pop(old(Now()), env).value)
    {
      hide D.AllocMeta, D.AllocFree, Linked, PartsOf;
      if mode == 1 {
        var r := AllocMetadata(env);
        if r.AssertFails? { return false; }
        mode := mode - 1;
        AllocFreespace();
      } else {
        mode := mode - 1;
      }
      return true;
    }

    // ---- placing ---------------------------------------------------------------------------------------------

    /** `_partition_get_overlap_constraint` */
    method OverlapConstraint(kind: Kind, part: Node?, start: int, ghost skip: int) returns (c: Option<C.Constraint>)
      requires Valid() && Ops.Overlappable(Now(), kind)
      requires Marks(if kind.InExtended() then logList.nodes else primList.nodes, part, skip)
      ensures C.ValidOpt(c) && c == Ops.OverlapConstraint(Now(), kind, skip, start)
    {
      hide C.FromMax, Linked, PartsOf, Marks, GapWalk, D.ExtIndex;
      var free;
      if kind.InExtended() {
        var ext, _ := ExtendedAt();
        var g := ext.value;
        free := logList.Stretch(part, start, g.start, g.end, skip);
      } else {
        free := primList.Stretch(part, start, 0, Ops.LLONG_MAX - 1, skip);
      }
      StretchValid(Now(), kind, skip, start);
      if free.None? { return None; }
      return Some(C.FromMax(free.value));
    }

    /** `_log_meta_overlap_constraint` */
    method SpaceForTables(p: Part, part: Node?, ghost skip: int) returns (r: Option<Geom>)
      requires Valid() && D.HasExt(Now()) && Marks(logList.nodes, part, skip)
      ensures r == MetaSpace(Now(), p, skip)
    {
      hide Linked, PartsOf, Marks, D.ExtIndex, MetaWalk, MetaNext;
      var ext, _ := ExtendedAt();
      var g, not5 := ext.value, D.Not5(p.num);
      var walk, minStart, i := PastTables(logList, p, part, g.start + 1 + not5, skip);
      var n, j := NextActive(logList, walk, part, i, skip);
      var maxEnd := if n != null then n.part.geom.start - 1 - D.Not5(n.part.num) else g.end;
      if minStart >= maxEnd { return None; }
      return Some(Geom(minStart, maxEnd));
    }

    /** `_get_min_extended_part_geom` */
    method MinExtended(head: int) returns (r: Option<Geom>)
      requires Valid()
      ensures r == MinExtGeom(Now(), head)
    {
      hide Linked, PartsOf, D.NumIndex;
      var five, k := logList.Numbered(5);
      if five == null { return None; }
      var g := Geom(five.part.geom.start - Max(head, 2), five.part.geom.end);
      var walk := logList.head;
      ghost var s, nodes, i, g0 := logList.Parts(), logList.nodes, 0, g;
      HeadIs(logList.head, nodes);
      assert s[0..] == s;
      while walk != null
        invariant 0 <= i <= |nodes| && walk == At(nodes, i) && MinExtWalk(s, head, g0) == MinExtWalk(s[i..], head, g)
        decreases |nodes| - i
      {
        NextIs(logList.head, nodes, i);
        var x := walk.part;
        assert s[i..][0] == x && s[i..][1..] == s[i + 1..];
        if x.kind.Active() && x.num != 5 {
          g := Geom(if x.geom.start < g.start then x.geom.start - 2 * head else g.start, Max(x.geom.end, g.end));
        }
        walk := walk.next;
        i := i + 1;
      }
      assert s[i..] == [];
      return Some(g);
    }

    /** `_align_logical`, and without cylinder alignment the plain attempt. */
    method AlignLogicalPart(p: Part, c: Option<C.Constraint>, part: Node?, cylinderAlign: bool, bios: D.Bios, ghost skip: int)
      returns (r: Option<Geom>)
      requires Valid() && Alignable(Now(), p) && p.kind == Logical && C.ValidOpt(c) && bios.Valid() && Marks(logList.nodes, part, skip)
      ensures r == LogicalPlace(Now(), p, c, cylinderAlign, bios, skip)
    {
      hide PedDisk.Valid, PedDisk.Now, MetaSpace, AlignHeads, TryConstraint, C.Intersect, MinStartHead, C.FromMax, Marks, D.ExtIndex;
      var space := SpaceForTables(p, part, skip);
      var d := Look();
      SpaceValid(d, p, skip);
      var meta := if space.None? then None else Some(C.FromMax(space.value));
      if cylinderAlign {
        var both := C.Intersect(c, meta);
        if both.Some? {
          r := TryHeads(d, p, bios, both, MinStartHead(p.num, bios, D.ExtPart(d).geom, false));
          if r.Some? { return; }
        }
      }
      r := TryConstraint(p.geom, c, meta, d.len);
    }

    /** `_align_primary` and `_align_primary_no_geom` */
    method AlignPrimaryPart(p: Part, c: Option<C.Constraint>, cylinderAlign: bool, bios: D.Bios) returns (r: Option<Geom>)
      requires Valid() && Alignable(Now(), p) && p.kind != Logical && C.ValidOpt(c) && bios.Valid()
      ensures r == PrimaryPlace(Now(), p, c, cylinderAlign, bios)
    {
      hide PedDisk.Valid, PedDisk.Now, TryConstraint, MinExtGeom, PrimaryStartConstraint, PrimaryConstraint, BestSolution, PastFirstSector, Between;
      var d := Look();
      var min: Option<Geom> := None;
      if cylinderAlign {
        if p.kind == Extended { min := MinExtended(bios.sectors); }
        MinIs(d, p, bios.sectors);
        var s1 := BestSolution(p.geom.start, bios, None,
                    TryConstraint(p.geom, c, PrimaryStartConstraint(d.len, p.geom.start, bios, min), d.len));
        r := BestSolution(p.geom.start, bios, s1, TryConstraint(p.geom, c, PrimaryConstraint(d.len, bios, min), d.len));
        if r.Some? { return; }
      }
      if p.kind != Extended { return TryConstraint(p.geom, c, Some(PastFirstSector(d.len)), d.len); }
      min := MinExtended(1);
      MinIs(d, p, 1);
      var own := if min.Some?
                 then Between(Some(A.Any), Some(A.Any), Make(1, min.value.start), Make(min.value.end, d.len - min.value.end), d.len)
                 else Between(Some(A.Any), Some(A.Any), Make(1, d.len - 1), Make(1, d.len - 1), d.len);
      r := TryConstraint(p.geom, c, own, d.len);
    }

    /** `msdos_partition_align`, `bsd_partition_align` */
    method AlignPart(p: Part, c: Option<C.Constraint>, part: Node?, env: Env, ghost skip: int) returns (r: Option<Geom>)
      requires Valid() && Alignable(Now(), p) && C.ValidOpt(c) && env.Valid()
      requires p.kind == Logical ==> Marks(logList.nodes, part, skip)
      ensures r == Align(Now(), p, c, skip, env)
    {
      hide PedDisk.Valid, PedDisk.Now, TryConstraint, AlignPrimary, AlignPrimaryNoGeom, AlignLogical, MetaOverlap, PastFirstSector, Marks;
      match env.scheme
      case Bsd =>
        var d := Look();
        r := TryConstraint(p.geom, c, Some(PastFirstSector(d.len)), d.len);
      case Msdos(cylinderAlign) =>
        if p.kind == Logical {
          r := AlignLogicalPart(p, c, part, cylinderAlign, env.probe(p), skip);
        } else {
          r := AlignPrimaryPart(p, c, cylinderAlign, env.probe(p));
        }
    }

    // ---- the operations ------------------------------------------------------------------------------------

    /** What `ped_disk_add_partition` does with an active partition in update mode. */
    method Settle(p: Part, c: Option<C.Constraint>, env: Env) returns (r: Option<Part>)
      requires Valid() && Ops.Usable(Now()) && p.kind.Active() && (p.kind.InExtended() ==> D.HasExt(Now()))
      requires C.ValidOpt(c) && env.Valid()
      ensures r == Ops.NewPart(Now(), p, c, env)
    {
      hide PedDisk.Valid, PedDisk.Now, Ops.OverlapConstraint, C.Intersect, D.EnumNum, Align, Ops.CheckPartition;
      var overlap := OverlapConstraint(p.kind, null, p.geom.start, -1);
      var both := C.Intersect(overlap, c);
      if both.None? && c.Some? { return None; }
      var num := NumberFor(p, env);
      if num.None? { return None; }
      var p1 := p.(num := num.value);
      var d := Look();
      var place := Some(p.geom);
      if !d.clobber { place := AlignPart(p1, both, null, env, -1); }
      if place.None? { return None; }
      var p2 := p1.(geom := place.value);
      if !Ops.CheckPartition(d, p2, None) { return None; }
      return Some(p2);
    }

    /** `ped_disk_add_partition` of an active partition. */
    method AddPartition(p: Part, c: Option<C.Constraint>, env: Env) returns (fine: bool, ok: bool)
      requires Valid() && Ops.Ready(Now(), env) && p.kind.Active() && C.ValidOpt(c) && env.Valid()
      modifies this, primObjects, logObjects
      ensures Valid() && fresh(primObjects - old(primObjects)) && fresh(logObjects - old(logObjects))
      ensures var r := Ops.AddPartition(old(Now()), p, c, env);
              fine == r.Ret? && (fine ==> (Now(), ok) == r.value)
    {
      hide PedDisk.Valid, PedDisk.Now, D.Push, D.Pop, Ops.NewPart, Ops.BasicSanity;
      var d := Look();
      if !Ops.BasicSanity(d, p, env) { return true, false; }
      SanityExt(d, p, env);
      PushUpdateMode(env);
      var r := Settle(p, c, env);
      if r.Some? { RawAdd(r.value); }
      InMode();
      fine := PopUpdateMode(env);
      ok := r.Some?;
    }

    lemma InMode()
      requires Valid()
      ensures mode == Now().mode
    {
    }

    /** The entry leaves its list and comes back where it belongs by now. */
    method Requeue(ref: Ref)
      requires Valid() && D.RefOk(Now(), ref) && D.PartAt(Now(), ref).kind.InExtended() == ref.Log?
      modifies primObjects, logObjects
      ensures unchanged(this) && Valid()
      ensures Now() == D.RawAdd(D.RawRemove(old(Now()), ref), D.PartAt(old(Now()), ref))
    {
      hide Linked, PartsOf, Insert, RemoveAt;
      match ref
      case Prim(k) => RequeuePrimary(k);
      case Log(k) => RequeueLogical(k);
    }

    method RequeuePrimary(k: nat)
      requires Valid() && k < |primList.nodes|
      modifies primObjects
      ensures unchanged(this) && Valid()
      ensures Now() == old(Now()).(prims := Insert(RemoveAt(old(Now()).prims, k), old(Now()).prims[k]))
    {
      hide Linked, PartsOf, Chain.Parts, Insert, RemoveAt;
      var n := primList.NodeAt(k);
      primList.Move(n, k);
    }

    method RequeueLogical(k: nat)
      requires Valid() && k < |logList.nodes|
      modifies logObjects
      ensures unchanged(this) && Valid()
      ensures Now() == old(Now()).(logs := Insert(RemoveAt(old(Now()).logs, k), old(Now()).logs[k]))
    {
      hide Linked, PartsOf, Chain.Parts, Insert, RemoveAt;
      var n := logList.NodeAt(k);
      logList.Move(n, k);
    }

    /** `_partition_get_overlap_constraint` and the caller's constraint. */
    method BoundsOf(ref: Ref, c: Option<C.Constraint>, start: int) returns (both: Option<C.Constraint>)
      requires Valid() && Ops.Usable(Now()) && Ops.Handle(Now(), ref) && C.ValidOpt(c)
      ensures both == Ops.Bounds(Now(), ref, c, start)
    {
      hide Linked, PartsOf, Ops.OverlapConstraint, C.Intersect, D.ExtIndex;
      var n := NodeAt(ref);
      var overlap := OverlapConstraint(n.part.kind, n, start, ref.k);
      both := C.Intersect(overlap, c);
    }

    /** Where the label puts the partition that is in the table with region `asked`. */
    method PlaceOf(ref: Ref, both: Option<C.Constraint>, env: Env) returns (place: Option<Geom>)
      requires Valid() && Ops.Usable(Now()) && Ops.Handle(Now(), ref) && C.ValidOpt(both) && env.Valid() && D.PartAt(Now(), ref).geom.Valid()
      ensures place == if Now().clobber then Some(D.PartAt(Now(), ref).geom) else Align(Now(), D.PartAt(Now(), ref), both, ref.k, env)
    {
      hide Linked, PartsOf, Align, D.ExtIndex;
      var n := NodeAt(ref);
      if clobber { return Some(n.part.geom); }
      place := AlignPart(n.part, both, n, env, ref.k);
    }

    /** The part of `ped_disk_set_partition_geom` in update mode. */
    method MoveIn(ref: Ref, c: Option<C.Constraint>, start: int, end: int, env: Env) returns (ok: bool)
      requires Valid() && Ops.Usable(Now()) && Ops.Handle(Now(), ref) && C.ValidOpt(c) && env.Valid() && 0 <= start <= end
      modifies primObjects, logObjects
      ensures unchanged(this) && Valid()
      ensures Ops.SetGeomCore(old(Now()), ref, c, start, end, env) == if ok then Ops.Changed(Now()) else Ops.Refused(Now())
    {
      hide PedDisk.Valid, PedDisk.Now, PedDisk.NodeOf, Ops.Bounds, Align, Ops.CheckPartition, Insert, RemoveAt, D.RawAdd, D.RawRemove, D.ExtIndex;
      ghost var d := Now();
      var both := BoundsOf(ref, c, start);
      if both.None? && c.Some? { return false; }
      var n := NodeAt(ref);
      NodePart(ref);
      var p := n.part;
      var p1 := p.(geom := Geom(start, end));
      Ops.SetPartExt(d, ref, p1);
      SetPart(ref, p1);
      SetUsable(d, ref, p1);
      var place := PlaceOf(ref, both, env);
      if place.None? { return false; }
      var p2 := p.(geom := place.value);
      SetTwice(d, ref, p1, p2);
      SetPart(ref, p2);
      var now := Look();
      if !Ops.CheckPartition(now, p2, Some(ref)) { return false; }
      SetThenRemove(d, ref, p2);
      Requeue(ref);
      return true;
    }

    /** `ped_disk_set_partition_geom`: on a refusal the old region is put back after
        update mode was left. */
    method SetPartitionGeom(ref: Ref, c: Option<C.Constraint>, start: int, end: int, env: Env) returns (fine: bool, ok: bool)
      requires Valid() && Ops.Ready(Now(), env) && Ops.Handle(D.Push(Now(), env), ref) && C.ValidOpt(c) && env.Valid() && start >= 0
      modifies this, primObjects, logObjects
      ensures Valid() && fresh(primObjects - old(primObjects)) && fresh(logObjects - old(logObjects))
      ensures var r := Ops.SetPartitionGeom(old(Now()), ref, c, start, end, env);
              fine == r.Ret? && (fine ==> (Now(), ok) == r.value)
    {
      hide PedDisk.Valid, PedDisk.Now, PedDisk.NodeOf, D.Push, D.Pop, Ops.SetGeomCore, Ops.RestoreAt, Ops.Usable;
      if end < start { return true, false; }
      PushUpdateMode(env);
      var n := NodeAt(ref);
      NodePart(ref);
      var was := n.part.geom;
      ok := MoveIn(ref, c, start, end, env);
      InMode();
      fine := PopUpdateMode(env);
      if fine && !ok { PutBack(ref, was); }
    }

    /** Put a region back into the `k`-th active entry of a list. */
    method PutBack(ref: Ref, geom: Geom)
      requires Valid()
      modifies primObjects, logObjects
      ensures unchanged(this) && Valid() && Now() == Ops.RestoreAt(old(Now()), ref, geom)
    {
      hide Linked, PartsOf, Ops.Restore;
      match ref
      case Prim(k) => RestoreIn(primList, k, geom);
      case Log(k) => RestoreIn(logList, k, geom);
    }

    /** `ped_disk_delete_all_logical` in update mode. */
    method DeleteLogicals(env: Env)
      requires Valid()
      modifies primObjects, logObjects
      ensures unchanged(this) && Valid() && Now() == Ops.DeleteLogicals(old(Now()), env)
    {
      hide PedDisk.Valid, PedDisk.Now, D.EnumerateAll;
      var d := Look();
      while d.logs != []
        invariant unchanged(this) && Valid() && d == Now()
        invariant Ops.DeleteLogicals(old(Now()), env) == Ops.DeleteLogicals(Now(), env)
        decreases |d.logs|
      {
        RawRemove(D.Log(0));
        EnumeratePartitions(env);
        d := Look();
      }
    }

    /** `ped_disk_delete_partition` */
    method DeletePartition(ref: Ref, env: Env) returns (fine: bool)
      requires Valid() && D.RefOk(D.Push(Now(), env), ref) && env.Valid()
      modifies this, primObjects, logObjects
      ensures Valid() && fresh(primObjects - old(primObjects)) && fresh(logObjects - old(logObjects))
      ensures var r := Ops.DeletePartition(old(Now()), ref, env); fine == r.Ret? && (fine ==> Now() == r.value)
    {
      hide PedDisk.Valid, PedDisk.Now, PedDisk.NodeOf, D.Push, D.Pop, D.EnumerateAll, Ops.DeleteLogicals;
      PushUpdateMode(env);
      var n := NodeAt(ref);
      NodePart(ref);
      if ref.Prim? && n.part.kind == Extended { DeleteLogicals(env); }
      RawRemove(ref);
      EnumeratePartitions(env);
      InMode();
      fine := PopUpdateMode(env);
    }

    /** `ped_disk_new_fresh`: the empty label leaves update mode and is marked as new. */
    static method NewFresh(len: int, env: Env) returns (disk: PedDisk, fine: bool)
      requires env.Valid()
      ensures fresh(disk) && disk.Valid() && fresh(disk.primObjects) && fresh(disk.logObjects)
      ensures fine == Ops.Fresh(len, env).Ret? && (fine ==> disk.Now() == Ops.Fresh(len, env).value)
    {
      hide D.Pop, Linked, PartsOf;
      disk := new PedDisk(len);
      fine := disk.PopUpdateMode(env);
      if fine { disk.clobber := true; }
    }

    /** `ped_disk_commit_to_dev` as far as the object is concerned. */
    method Commit()
      requires Valid()
      modifies this`clobber
      ensures Valid() && Now() == old(Now()).(clobber := false)
    {
      hide Linked, PartsOf;
      if clobber { clobber := false; }
    }
  }

  /** The `k`-th active entry of a list gets a region. */
  method RestoreIn(list: Chain, k: nat, geom: Geom)
    requires list.Valid()
    modifies list.nodes`part
    ensures list.Valid() && list.Parts() == Ops.Restore(old(list.Parts()), k, geom)
  {
    hide Linked, PartsOf, Chain.Parts, Ops.Restore;
    var n, i := KthActive(list, k, geom);
    if n != null { list.SetAt(n, n.part.(geom := geom), i); }
  }

  method KthActive(list: Chain, k: nat, ghost geom: Geom) returns (n: Node?, ghost i: nat)
    requires list.Valid()
    ensures i <= |list.nodes| && n == At(list.nodes, i)
    ensures Ops.Restore(list.Parts(), k, geom)
            == if i < |list.nodes| then list.Parts()[i := list.Parts()[i].(geom := geom)] else list.Parts()
  {
    hide Linked, PartsOf, Chain.Parts, Ops.Restore, Restoring;
    ghost var s, nodes := list.Parts(), list.nodes;
    var j := k;
    n, i := list.head, 0;
    HeadIs(list.head, nodes);
    RestoreFirst(s, k, geom);
    while n != null && (j > 0 || !n.part.kind.Active())
      invariant 0 <= i <= |nodes| && n == At(nodes, i) && Ops.Restore(s, k, geom) == Restoring(s, i, j, geom)
      decreases |nodes| - i
    {
      NextIs(list.head, nodes, i);
      RestoreStep(s, i, j, geom);
      if n.part.kind.Active() { j := j - 1; }
      n := n.next;
      i := i + 1;
    }
    RestoreHere(s, i, j, geom);
  }

  ghost function Restoring(s: seq<Part>, i: nat, j: nat, geom: Geom): seq<Part>
    requires i <= |s|
  {
    s[..i] + Ops.Restore(s[i..], j, geom)
  }

  lemma RestoreFirst(s: seq<Part>, k: nat, geom: Geom)
    ensures Restoring(s, 0, k, geom) == Ops.Restore(s, k, geom)
  {
    assert s[0..] == s && s[..0] == [];
  }

  lemma RestoreStep(s: seq<Part>, i: nat, j: nat, geom: Geom)
    requires i < |s| && (j > 0 || !s[i].kind.Active())
    ensures Restoring(s, i, j, geom) == Restoring(s, i + 1, if s[i].kind.Active() then j - 1 else j, geom)
  {
    assert s[i..][0] == s[i] && s[i..][1..] == s[i + 1..];
    var rest := Ops.Restore(s[i + 1..], if s[i].kind.Active() then j - 1 else j, geom);
    assert s[..i] + ([s[i]] + rest) == s[..i + 1] + rest;
  }

  lemma RestoreHere(s: seq<Part>, i: nat, j: nat, geom: Geom)
    requires i <= |s| && (i < |s| ==> j == 0 && s[i].kind.Active())
    ensures Restoring(s, i, j, geom) == if i < |s| then s[i := s[i].(geom := geom)] else s
  {
    if i < |s| { assert s[i..][0] == s[i] && s[i..][1..] == s[i + 1..]; }
  }

  lemma SanityExt(d: Disk, p: Part, env: Env)
    requires Ops.BasicSanity(d, p, env)
    ensures p.kind.InExtended() ==> D.HasExt(d)
  {
  }

  lemma SetUsable(d: Disk, ref: Ref, p: Part)
    requires Ops.Usable(d) && Ops.Handle(d, ref) && p.geom.Valid() && p.kind == D.PartAt(d, ref).kind
    ensures Ops.Usable(D.SetPart(d, ref, p)) && Ops.Handle(D.SetPart(d, ref, p), ref)
  {
    Ops.SetPartExt(d, ref, p);
  }

  lemma SetThenRemove(d: Disk, ref: Ref, p: Part)
    requires D.RefOk(d, ref)
    ensures D.RawRemove(D.SetPart(d, ref, p), ref) == D.RawRemove(d, ref)
  {
  }

  /** The loop of `_align_logical` over the heads. */
  method TryHeads(d: Disk, p: Part, bios: D.Bios, c: Option<C.Constraint>, head0: int) returns (best: Option<Geom>)
    requires bios.Valid() && d.len >= 2 && D.HasExt(d) && D.ExtPart(d).geom.Valid() && C.ValidOpt(c)
    ensures best == AlignHeads(d, p, bios, c, head0, None)
  {
    hide TryConstraint, BestSolution, LogicalConstraint, MinStartHead, D.ExtIndex;
    best := None;
    D.CylinderPositive(bios);
    var head := head0;
    while head < Min(5, bios.heads)
      invariant AlignHeads(d, p, bios, c, head0, None) == AlignHeads(d, p, bios, c, head, best)
      decreases Min(5, bios.heads) - head
    {
      var start := A.RoundDownTo(p.geom.start, bios.CylinderSize()) + head * bios.sectors;
      var atStart := head >= MinStartHead(p.num, bios, D.ExtPart(d).geom, true);
      var found := TryConstraint(p.geom, c, LogicalConstraint(d, bios, start, atStart), d.len);
      best := BestSolution(p.geom.start, bios, best, found);
      head := head + 1;
    }
  }

  /** What `Align` comes to for a logical partition of an msdos label. */
  function LogicalPlace(d: Disk, p: Part, c: Option<C.Constraint>, cylinderAlign: bool, bios: D.Bios, skip: int): Option<Geom>
    requires Alignable(d, p) && p.kind == Logical && C.ValidOpt(c) && bios.Valid()
  {
    var aligned := if cylinderAlign then AlignLogical(d, p, bios, c, skip) else None;
    if aligned.Some? then aligned else TryConstraint(p.geom, c, MetaOverlap(d, p, skip), d.len)
  }

  /** And for any other. */
  function PrimaryPlace(d: Disk, p: Part, c: Option<C.Constraint>, cylinderAlign: bool, bios: D.Bios): Option<Geom>
    requires Alignable(d, p) && C.ValidOpt(c) && bios.Valid()
  {
    var aligned := if cylinderAlign then AlignPrimary(d, p, bios, c) else None;
    if aligned.Some? then aligned else AlignPrimaryNoGeom(d, p, c)
  }

  lemma SpaceValid(d: Disk, p: Part, skip: int)
    requires Alignable(d, p) && p.kind == Logical
    ensures var space := MetaSpace(d, p, skip);
            && (space.Some? ==> space.value.Valid())
            && MetaOverlap(d, p, skip) == if space.None? then None else Some(C.FromMax(space.value))
  {
    hide C.FromMax;
    MetaWalkNonNeg(d.logs, skip, p.num, p.geom.start, 0, D.ExtPart(d).geom.start + 1 + D.Not5(p.num));
  }

  lemma MinIs(d: Disk, p: Part, head: int)
    requires NonNegative(d.logs)
    ensures ExtMinimum(d, p, head) == if p.kind == Extended then MinExtGeom(d, head) else None
    ensures ExtMinimum(d, p, head).Some? ==> ExtMinimum(d, p, head).value.end >= 0
  {
  }

  lemma StretchValid(d: Disk, kind: Kind, skip: int, start: int)
    requires Ops.Overlappable(d, kind)
    ensures var free := Ops.FreeStretch(d, kind, skip, start);
            && (free.Some? ==> free.value.Valid())
            && Ops.OverlapConstraint(d, kind, skip, start) == if free.None? then None else Some(C.FromMax(free.value))
  {
    hide C.FromMax;
    Ops.GapWalkNonNeg(d.prims, skip, start, 0, 0);
    if kind.InExtended() {
      assert d.prims[D.ExtIndex(d.prims)].geom.Valid();
      Ops.GapWalkNonNeg(d.logs, skip, start, 0, D.ExtPart(d).geom.start);
    }
  }

  lemma MetaLen(d: Disk, kind: Kind, start: int, end: int)
    requires kind.IsMeta()
    ensures var r := D.AddMeta(d, kind, start, end); r.Some? ==> r.value.len == d.len
  {
  }

  lemma LogicalStaysIn(d: Disk, bios: D.Bios, k: nat)
    requires bios.Valid() && D.HasExt(d) && k < |d.logs|
    ensures var r := D.AddLogMeta(d, bios, k); !r.AssertFails? ==> r.disk.prims == d.prims
  {
  }

  lemma SetTwice(d: Disk, ref: Ref, p: Part, q: Part)
    requires D.RefOk(d, ref)
    ensures D.SetPart(D.SetPart(d, ref, p), ref, q) == D.SetPart(d, ref, q)
  {
  }

  lemma RefsStay(d: Disk, d': Disk, t: seq<Ref>)
    requires |d.prims| == |d'.prims| && |d.logs| == |d'.logs|
    requires forall i :: 0 <= i < |t| ==> D.RefOk(d, t[i])
    ensures forall i :: 0 <= i < |t| ==> D.RefOk(d', t[i])
  {
  }

  /** Giving a number changes no kind, so the order of the walk stays. */
  lemma EnumerateKeepsOrder(d: Disk, env: Env, ref: Ref)
    requires D.RefOk(d, ref)
    ensures D.Traversal(D.EnumerateAt(d, env, ref).0) == D.Traversal(d)
  {
    hide D.EnumNum;
    var p := D.PartAt(d, ref);
    var n := D.EnumNum(D.SetPart(d, ref, p.(num := UNNUMBERED)), env, p);
    Ops.SetPartExt(d, ref, p.(num := UNNUMBERED));
    if n.Some? { Ops.SetPartExt(d, ref, p.(num := n.value)); }
  }
}
