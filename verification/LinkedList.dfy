/** The links of a partition list: `prev`, `next` and the head pointer, and the three
    splices and the sorted insertion that change them (libparted/disk.c:1824-1924). */
module LinkedList {
  import opened CInt
  import opened Geometry
  import opened PartList
  import D = Disk

  /** `PedPartition`: what it describes, and its links. */
  class Node {
    var part: Part
    var prev: Node?
    var next: Node?

    constructor (part: Part)
      ensures this.part == part && prev == null && next == null
    {
      this.part, prev, next := part, null, null;
    }
  }

  /** What the nodes describe, in order. */
  ghost function PartsOf(s: seq<Node>): (r: seq<Part>)
    reads s`part
    ensures |r| == |s| && forall i :: 0 <= i < |s| ==> r[i] == s[i].part
  {
    if s == [] then [] else [s[0].part] + PartsOf(s[1..])
  }

  function PrevOf(s: seq<Node>, i: nat): Node?
    requires i < |s|
  {
    if i == 0 then null else s[i - 1]
  }

  function NextOf(s: seq<Node>, i: nat): Node?
    requires i < |s|
  {
    if i + 1 == |s| then null else s[i + 1]
  }

  /** Entry `i`, or nothing behind the last one. */
  function At(s: seq<Node>, i: nat): Node?
    requires i <= |s|
  {
    if i < |s| then s[i] else null
  }

  /** `part` is the entry at `skip`, or none of the list. */
  ghost predicate Marks(s: seq<Node>, part: Node?, skip: int) {
    if part == null then skip < 0 else 0 <= skip < |s| && part == s[skip]
  }

  lemma MarksAt(head: Node?, s: seq<Node>, part: Node?, skip: int, i: nat)
    requires Linked(head, s) && Marks(s, part, skip) && i < |s|
    ensures s[i] == part <==> i == skip
  {
  }

  lemma MarksNone(s: seq<Node>, part: Node?, skip: int)
    requires Marks(s, part, skip)
    ensures skip != |s|
  {
  }

  lemma HeadIs(head: Node?, s: seq<Node>)
    requires Linked(head, s)
    ensures head == At(s, 0)
  {
  }

  lemma NextIs(head: Node?, s: seq<Node>, i: nat)
    requires Linked(head, s) && i < |s|
    ensures s[i].next == At(s, i + 1)
  {
  }

  ghost predicate Linked(head: Node?, s: seq<Node>)
    reads s`prev, s`next
  {
    && Distinct(s)
    && head == (if s == [] then null else s[0])
    && (forall i :: 0 <= i < |s| ==> s[i].prev == PrevOf(s, i) && s[i].next == NextOf(s, i))
  }

  ghost predicate Distinct(s: seq<Node>) {
    forall i, j :: 0 <= i < j < |s| ==> s[i] != s[j]
  }

  function Spliced(s: seq<Node>, k: nat, part: Node): seq<Node>
    requires k <= |s|
  {
    s[..k] + [part] + s[k..]
  }

  lemma SplicedAt(s: seq<Node>, k: nat, part: Node)
    requires k <= |s|
    ensures var r := Spliced(s, k, part);
            && |r| == |s| + 1 && r[k] == part
            && (forall i :: 0 <= i < k ==> r[i] == s[i]) && (forall i :: k < i < |r| ==> r[i] == s[i - 1])
  {
  }

  lemma SplicedDistinct(s: seq<Node>, k: nat, part: Node)
    requires k <= |s| && Distinct(s) && part !in s
    ensures Distinct(Spliced(s, k, part))
  {
    hide Spliced;
    SplicedAt(s, k, part);
  }

  /** A list into which `part` has been spliced before entry `k`. */
  lemma SplicedLinked(head: Node?, s: seq<Node>, k: nat, part: Node)
    requires k <= |s| && Distinct(s) && part !in s
    requires head == (if k == 0 then part else s[0])
    requires part.prev == (if k == 0 then null else s[k - 1]) && part.next == (if k == |s| then null else s[k])
    requires forall i :: 0 <= i < |s| ==> s[i].prev == (if i == k then part else PrevOf(s, i))
    requires forall i :: 0 <= i < |s| ==> s[i].next == (if i + 1 == k then part else NextOf(s, i))
    ensures Linked(head, Spliced(s, k, part))
  {
    hide Spliced, Distinct;
    var r := Spliced(s, k, part);
    SplicedAt(s, k, part);
    SplicedDistinct(s, k, part);
    forall i | 0 <= i < |r| ensures r[i].prev == PrevOf(r, i) && r[i].next == NextOf(r, i) {
      if i < k { assert r[i] == s[i]; } else if i > k { assert r[i] == s[i - 1]; }
    }
  }

  lemma DistinctIs(s: seq<Node>)
    requires Distinct(s)
    ensures forall i, j :: 0 <= i < j < |s| ==> s[i] != s[j]
  {
  }

  function Without(s: seq<Node>, k: nat): seq<Node>
    requires k < |s|
  {
    s[..k] + s[k + 1..]
  }

  lemma WithoutAt(s: seq<Node>, k: nat)
    requires k < |s|
    ensures var r := Without(s, k);
            |r| == |s| - 1 && (forall i :: 0 <= i < k ==> r[i] == s[i]) && (forall i :: k <= i < |r| ==> r[i] == s[i + 1])
  {
  }

  /** A list out of which entry `k` has been taken. */
  lemma WithoutLinked(head: Node?, s: seq<Node>, k: nat)
    requires k < |s| && Distinct(s)
    requires head == (if k > 0 then s[0] else NextOf(s, 0))
    requires forall i :: 0 <= i < |s| && i != k ==> s[i].prev == (if i == k + 1 then PrevOf(s, k) else PrevOf(s, i))
    requires forall i :: 0 <= i < |s| && i != k ==> s[i].next == (if i + 1 == k then NextOf(s, k) else NextOf(s, i))
    ensures Linked(head, Without(s, k)) && s[k] !in Without(s, k)
  {
    hide Without, Distinct;
    var r := Without(s, k);
    WithoutAt(s, k);
    DistinctIs(s);
    forall i | 0 <= i < |r| ensures r[i].prev == PrevOf(r, i) && r[i].next == NextOf(r, i) && r[i] != s[k] {
      if i < k { assert r[i] == s[i]; } else { assert r[i] == s[i + 1]; }
    }
    WithoutDistinct(s, k);
  }

  lemma WithoutDistinct(s: seq<Node>, k: nat)
    requires k < |s| && Distinct(s)
    ensures Distinct(Without(s, k))
  {
    hide Without;
    var r := Without(s, k);
    WithoutAt(s, k);
    forall i, j | 0 <= i < j < |r| ensures r[i] != r[j] {
      assert r[i] == s[if i < k then i else i + 1] && r[j] == s[if j < k then j else j + 1];
    }
  }

  /** No other entry is entry `k`. */
  lemma Only(s: seq<Node>, k: nat)
    requires Distinct(s) && k < |s|
    ensures forall i :: 0 <= i < |s| && i != k ==> s[i] != s[k]
  {
  }

  /** `part_list`; `nodes` is what it holds, in order. */
  class Chain {
    var head: Node?
    ghost var nodes: seq<Node>

    ghost predicate Valid()
      reads this, nodes`prev, nodes`next
    {
      Linked(head, nodes)
    }

    ghost function Parts(): (r: seq<Part>)
      reads this, nodes`part
      ensures |r| == |nodes| && forall i :: 0 <= i < |r| ==> r[i] == nodes[i].part
    {
      PartsOf(nodes)
    }

    constructor ()
      ensures Valid() && nodes == []
    {
      head, nodes := null, [];
    }

    /** `_disk_raw_insert_before` */
    method InsertBefore(loc: Node, part: Node, ghost k: nat)
      requires Valid() && k < |nodes| && nodes[k] == loc && part !in nodes
      modifies this, nodes`prev, nodes`next, part`prev, part`next
      ensures Valid() && nodes == Spliced(old(nodes), k, part)
    {
      hide Spliced, Distinct;
      Only(nodes, k);
      if k > 0 { Only(nodes, k - 1); }
      part.prev := loc.prev;
      part.next := loc;
      if part.prev != null { part.prev.next := part; } else { head := part; }
      loc.prev := part;
      SplicedLinked(head, nodes, k, part);
      SplicedAt(nodes, k, part);
      nodes := Spliced(nodes, k, part);
    }

    /** The assignments of `_disk_raw_insert_after`. */
    method LinkAfter(loc: Node, part: Node, ghost k: nat)
      requires Valid() && k < |nodes| && nodes[k] == loc && part !in nodes
      modifies nodes`prev, nodes`next, part`prev, part`next
      ensures part.prev == loc && part.next == (if k + 1 == |nodes| then null else nodes[k + 1])
      ensures forall i :: 0 <= i < |nodes| ==> nodes[i].prev == (if i == k + 1 then part else PrevOf(nodes, i))
      ensures forall i :: 0 <= i < |nodes| ==> nodes[i].next == (if i == k then part else NextOf(nodes, i))
    {
      hide Distinct;
      Only(nodes, k);
      if k + 1 < |nodes| { Only(nodes, k + 1); }
      part.prev := loc;
      part.next := loc.next;
      if loc.next != null { loc.next.prev := part; }
      loc.next := part;
    }

    /** `_disk_raw_insert_after`, behind the last entry or within the list. */
    method InsertAfter(loc: Node, part: Node, ghost k: nat)
      requires Valid() && k < |nodes| && nodes[k] == loc && part !in nodes
      modifies this`nodes, nodes`prev, nodes`next, part`prev, part`next
      ensures Valid() && nodes == Spliced(old(nodes), k + 1, part)
    {
      hide Spliced;
      LinkAfter(loc, part, k);
      SplicedLinked(head, nodes, k + 1, part);
      SplicedAt(nodes, k + 1, part);
      nodes := Spliced(nodes, k + 1, part);
    }

    /** The assignments of `_disk_raw_remove`. */
    method Unlink(part: Node, ghost k: nat)
      requires Valid() && k < |nodes| && nodes[k] == part
      modifies this`head, nodes`prev, nodes`next
      ensures head == (if k > 0 then nodes[0] else NextOf(nodes, 0))
      ensures forall i :: 0 <= i < |nodes| && i != k ==> nodes[i].prev == (if i == k + 1 then PrevOf(nodes, k) else PrevOf(nodes, i))
      ensures forall i :: 0 <= i < |nodes| && i != k ==> nodes[i].next == (if i + 1 == k then NextOf(nodes, k) else NextOf(nodes, i))
      ensures part.prev == old(part.prev) && part.next == old(part.next)
    {
      hide Distinct;
      Only(nodes, k);
      if k > 0 { Only(nodes, k - 1); }
      if k + 1 < |nodes| { Only(nodes, k + 1); }
      if part.prev != null {
        part.prev.next := part.next;
        if part.next != null { part.next.prev := part.prev; }
      } else {
        head := part.next;
        if part.next != null { part.next.prev := null; }
      }
    }

    /** `_disk_raw_remove`: the links of the removed entry itself stay as they were. */
    method Remove(part: Node, ghost k: nat)
      requires Valid() && k < |nodes| && nodes[k] == part
      modifies this, nodes`prev, nodes`next
      ensures Valid() && nodes == Without(old(nodes), k) && part !in nodes
      ensures part.prev == old(part.prev) && part.next == old(part.next)
    {
      hide Without;
      Unlink(part, k);
      WithoutLinked(head, nodes, k);
      nodes := Without(nodes, k);
    }

    /** The walk of `_disk_raw_add`. */
    method Place(end: int) returns (walk: Node?, last: Node?, ghost k: nat)
      requires Valid()
      ensures IsPoint(nodes, k, end)
      ensures walk == (if k < |nodes| then nodes[k] else null) && last == (if k > 0 then nodes[k - 1] else null)
    {
      hide Distinct;
      last, walk, k := null, head, 0;
      while walk != null && walk.part.geom.start <= end
        invariant 0 <= k <= |nodes| && walk == (if k < |nodes| then nodes[k] else null)
        invariant last == (if k > 0 then nodes[k - 1] else null)
        invariant forall i :: 0 <= i < k ==> nodes[i].part.geom.start <= end
        decreases |nodes| - k
      {
        last, walk := walk, walk.next;
        k := k + 1;
      }
    }

    /** `_disk_raw_add`.  Into an empty list the entry goes as it is, so the links are
        right exactly when its own do not point anywhere. */
    method RawAdd(part: Node) returns (ghost k: nat)
      requires Valid() && part !in nodes
      modifies this, nodes`prev, nodes`next, part`prev, part`next
      ensures old(IsPoint(nodes, k, part.part.geom.end)) && nodes == Spliced(old(nodes), k, part)
      ensures Valid() <==> old(nodes) != [] || (old(part.prev) == null && old(part.next) == null)
    {
      hide Spliced, Linked;
      var walk, last;
      walk, last, k := Place(part.part.geom.end);
      if walk != null {
        InsertBefore(walk, part, k);
      } else if last != null {
        InsertAfter(last, part, k - 1);
      } else {
        head := part;
        Single(part);
        nodes := Spliced(nodes, 0, part);
      }
    }

    // ---- walks ---------------------------------------------------------------------------------------

    /** What the list describes, read along `next`. */
    method Values() returns (r: seq<Part>)
      requires Valid()
      ensures r == Parts()
    {
      hide Linked, PartsOf;
      r := [];
      var walk := head;
      HeadIs(head, nodes);
      while walk != null
        invariant 0 <= |r| <= |nodes| && walk == At(nodes, |r|) && forall i :: 0 <= i < |r| ==> r[i] == nodes[i].part
        decreases |nodes| - |r|
      {
        NextIs(head, nodes, |r|);
        r := r + [walk.part];
        walk := walk.next;
      }
    }

    /** The entry at a position. */
    method NodeAt(k: nat) returns (n: Node)
      requires Valid() && k < |nodes|
      ensures n == nodes[k]
    {
      hide Linked;
      HeadIs(head, nodes);
      n := head;
      var i := 0;
      while i < k
        invariant 0 <= i <= k && n == nodes[i]
      {
        NextIs(head, nodes, i);
        n := n.next;
        i := i + 1;
      }
    }

    /** `ped_disk_extended_partition` */
    method Extended() returns (n: Node?, k: int)
      requires Valid()
      ensures k == D.ExtIndex(Parts()) && n == (if k >= 0 then nodes[k] else null)
    {
      hide Linked, PartsOf;
      HeadIs(head, nodes);
      n, k := head, 0;
      while n != null && n.part.kind != Kind.Extended
        invariant 0 <= k <= |nodes| && n == At(nodes, k) && forall i :: 0 <= i < k ==> nodes[i].part.kind != Kind.Extended
        decreases |nodes| - k
      {
        NextIs(head, nodes, k);
        n := n.next;
        k := k + 1;
      }
      if n == null { k := -1; }
    }

    /** The first entry with a number. */
    method Numbered(num: int) returns (n: Node?, k: int)
      requires Valid()
      ensures k == D.NumIndex(Parts(), num) && n == (if k >= 0 then nodes[k] else null)
    {
      hide Linked, PartsOf;
      HeadIs(head, nodes);
      n, k := head, 0;
      while n != null && !(n.part.num == num && !n.part.kind.IsFree())
        invariant 0 <= k <= |nodes| && n == At(nodes, k) && forall i :: 0 <= i < k ==> !D.HasNum(nodes[i].part, num)
        decreases |nodes| - k
      {
        NextIs(head, nodes, k);
        n := n.next;
        k := k + 1;
      }
      if n == null { k := -1; }
    }

    /** The largest number. */
    method LastNum() returns (m: int)
      requires Valid()
      ensures m == D.LastNum(Parts())
    {
      hide Linked, PartsOf, Chain.Parts;
      HeadIs(head, nodes);
      var walk := head;
      ghost var i, s := 0, Parts();
      m := UNNUMBERED;
      assert s[0..] == s;
      while walk != null
        invariant 0 <= i <= |nodes| && walk == At(nodes, i) && m >= UNNUMBERED && Max(m, D.LastNum(s[i..])) == D.LastNum(s)
        decreases |nodes| - i
      {
        NextIs(head, nodes, i);
        assert s[i..][0] == walk.part && s[i..][1..] == s[i + 1..];
        if walk.part.num > m { m := walk.part.num; }
        walk := walk.next;
        i := i + 1;
      }
      assert s[i..] == [];
    }

    /** The walk of `_partition_get_overlap_constraint`. */
    method Stretch(part: Node?, start: int, lo: int, hi: int, ghost skip: int) returns (r: Option<Geom>)
      requires Valid() && Marks(nodes, part, skip)
      ensures r == Gap(Parts(), skip, start, lo, hi)
    {
      hide Linked, PartsOf, Chain.Parts, Marks;
      HeadIs(head, nodes);
      var minStart, maxEnd, walk := lo, hi, head;
      ghost var i, s := 0, Parts();
      while walk != null && (walk.part.geom.start < start || minStart >= walk.part.geom.start)
        invariant 0 <= i <= |nodes| && walk == At(nodes, i)
        invariant GapWalk(s, skip, start, 0, lo) == GapWalk(s, skip, start, i, minStart)
        decreases |nodes| - i
      {
        NextIs(head, nodes, i);
        MarksAt(head, nodes, part, skip, i);
        if walk != part { minStart := walk.part.geom.end + 1; }
        walk := walk.next;
        i := i + 1;
      }
      assert GapWalk(s, skip, start, 0, lo) == (i, minStart);
      if walk != null {
        MarksAt(head, nodes, part, skip, i);
        NextIs(head, nodes, i);
        if walk == part { walk := walk.next; }
      } else {
        MarksNone(nodes, part, skip);
      }
      if walk != null { maxEnd := walk.part.geom.start - 1; }
      if minStart > maxEnd { return None; }
      return Some(Geom(minStart, maxEnd));
    }

    // ---- changes ------------------------------------------------------------------------------------------

    /** A new entry for `p`. */
    method AddPart(p: Part) returns (n: Node)
      requires Valid()
      modifies this, nodes`prev, nodes`next
      ensures Valid() && fresh(n) && Parts() == Insert(old(Parts()), p)
      ensures forall j :: 0 <= j < |nodes| ==> nodes[j] in old(nodes) || nodes[j] == n
    {
      hide Spliced, Linked, Insert, PartsOf;
      n := new Node(p);
      ghost var s := nodes;
      ghost var k := RawAdd(n);
      SplicedAs(s, k, n);
      SplicedAt(s, k, n);
    }

    method RemovePart(part: Node, ghost k: nat)
      requires Valid() && k < |nodes| && nodes[k] == part
      modifies this, nodes`prev, nodes`next
      ensures Valid() && Parts() == RemoveAt(old(Parts()), k)
      ensures nodes == Without(old(nodes), k)
      ensures forall j :: 0 <= j < |nodes| ==> nodes[j] in old(nodes)
      ensures part.next == old(part.next)
    {
      hide Linked, RemoveAt, Without, PartsOf;
      WithoutParts(nodes, k);
      WithoutAt(nodes, k);
      Remove(part, k);
    }

    /** The list once the walk is done, if all before entry `i` is. */
    ghost function Dropped(i: nat): seq<Part>
      requires i <= |nodes|
      reads this, nodes`part
    {
      Parts()[..i] + D.DropFree(Parts()[i..])
    }

    /** One turn of the walk below. */
    method DropFrom(walk: Node, ghost i: nat) returns (ghost k: nat)
      requires Valid() && i < |nodes| && nodes[i] == walk
      modifies this, nodes`prev, nodes`next
      ensures Valid() && k <= |nodes| && Dropped(k) == old(Dropped(i)) && |nodes| - k < old(|nodes|) - i
      ensures At(nodes, k) == old(At(nodes, i + 1))
      ensures forall j :: 0 <= j < |nodes| ==> nodes[j] in old(nodes)
    {
      hide Linked, PartsOf, Chain.Parts, D.DropFree, Without, RemoveAt;
      DropStep(Parts(), i);
      if walk.part.kind.IsFree() {
        WithoutAt(nodes, i);
        RemovePart(walk, i);
        k := i;
      } else {
        k := i + 1;
      }
    }

    /** The walk of `_disk_remove_freespace`. */
    method RemoveFree()
      requires Valid()
      modifies this, nodes`prev, nodes`next
      ensures Valid() && Parts() == D.DropFree(old(Parts()))
      ensures forall j :: 0 <= j < |nodes| ==> nodes[j] in old(nodes)
    {
      hide Linked, PartsOf, Chain.Parts, D.DropFree, Chain.Dropped;
      HeadIs(head, nodes);
      var walk := head;
      ghost var i := 0;
      DroppedFirst();
      while walk != null
        invariant 0 <= i <= |nodes| && Valid() && walk == At(nodes, i)
        invariant forall j :: 0 <= j < |nodes| ==> nodes[j] in old(nodes)
        invariant Dropped(i) == old(Dropped(0))
        decreases |nodes| - i
      {
        NextIs(head, nodes, i);
        var next := walk.next;
        i := DropFrom(walk, i);
        walk := next;
      }
      DroppedLast();
    }

    lemma DroppedFirst()
      ensures Dropped(0) == D.DropFree(Parts())
    {
      hide D.DropFree, PartsOf, Chain.Parts;
      assert Parts()[0..] == Parts() && Parts()[..0] == [];
    }

    lemma DroppedLast()
      ensures Dropped(|nodes|) == Parts()
    {
      hide PartsOf, Chain.Parts;
      assert Parts()[..|nodes|] == Parts() && Parts()[|nodes|..] == [];
    }

    /** A placeholder before an entry. */
    method FreeBefore(loc: Node, p: Part, ghost i: nat)
      requires Valid() && i < |nodes| && nodes[i] == loc
      modifies this, nodes`prev, nodes`next
      ensures Valid() && Parts() == InsertAt(old(Parts()), i, p) && |nodes| == old(|nodes|) + 1 && nodes[i + 1] == loc
      ensures forall j :: 0 <= j < |nodes| ==> nodes[j] in old(nodes) || fresh(nodes[j])
    {
      hide Linked, PartsOf, InsertAt, Spliced;
      var free := new Node(p);
      SplicedParts(nodes, i, free);
      SplicedAt(nodes, i, free);
      InsertBefore(loc, free, i);
    }

    /** A placeholder behind the last entry, or as the only one. */
    method FreeBehind(last: Node?, p: Part)
      requires Valid() && last == (if nodes == [] then null else nodes[|nodes| - 1])
      modifies this, nodes`prev, nodes`next
      ensures Valid() && Parts() == InsertAt(old(Parts()), old(|nodes|), p)
      ensures forall j :: 0 <= j < |nodes| ==> nodes[j] in old(nodes) || fresh(nodes[j])
    {
      hide Linked, PartsOf, InsertAt, Spliced;
      var free := new Node(p);
      SplicedParts(nodes, |nodes|, free);
      SplicedAt(nodes, |nodes|, free);
      if last != null {
        InsertAfter(last, free, |nodes| - 1);
      } else {
        head := free;
        Single(free);
        nodes := Spliced(nodes, 0, free);
      }
    }

    /** The list once the walk is done, if all before entry `i` is. */
    ghost function Filled(i: nat, lastEnd: int, hi: int, kind: Kind): seq<Part>
      requires i <= |nodes|
      reads this, nodes`part
    {
      Parts()[..i] + FillFree(Parts()[i..], lastEnd, hi, kind)
    }

    /** One turn of the walk below. */
    method FillBefore(walk: Node, lastEnd: int, hi: int, kind: Kind, ghost i: nat) returns (ghost k: nat)
      requires Valid() && i < |nodes| && nodes[i] == walk
      modifies this, nodes`prev, nodes`next
      ensures Valid() && k < |nodes| && nodes[k] == walk && |nodes| - k == old(|nodes|) - i
      ensures Filled(k + 1, walk.part.geom.end, hi, kind) == old(Filled(i, lastEnd, hi, kind))
      ensures forall j :: 0 <= j < |nodes| ==> nodes[j] in old(nodes) || fresh(nodes[j])
    {
      hide Linked, PartsOf, Chain.Parts, FillFree, InsertAt;
      FillStep(Parts(), i, lastEnd, hi, kind);
      k := i;
      if walk.part.geom.start > lastEnd + 1 {
        FreeBefore(walk, Placeholder(kind, lastEnd + 1, walk.part.geom.start - 1), i);
        k := i + 1;
      }
    }

    /** The walk of `_disk_alloc_freespace` and `_alloc_extended_freespace`: a placeholder
        before each entry that leaves room, and one behind the last. */
    method AddFree(lastEnd0: int, hi: int, kind: Kind)
      requires Valid()
      modifies this, nodes`prev, nodes`next
      ensures Valid() && Parts() == FillFree(old(Parts()), lastEnd0, hi, kind)
      ensures forall j :: 0 <= j < |nodes| ==> nodes[j] in old(nodes) || fresh(nodes[j])
    {
      hide Linked, PartsOf, Chain.Parts, FillFree, InsertAt, Chain.Filled;
      HeadIs(head, nodes);
      var walk, lastEnd := head, lastEnd0;
      var last: Node? := null;
      ghost var i := 0;
      FilledFirst(lastEnd0, hi, kind);
      while walk != null
        invariant 0 <= i <= |nodes| && Valid() && walk == At(nodes, i) && last == (if i > 0 then nodes[i - 1] else null)
        invariant forall j :: 0 <= j < |nodes| ==> nodes[j] in old(nodes) || fresh(nodes[j])
        invariant Filled(i, lastEnd, hi, kind) == old(Filled(0, lastEnd0, hi, kind))
        decreases |nodes| - i
      {
        ghost var k := FillBefore(walk, lastEnd, hi, kind, i);
        NextIs(head, nodes, k);
        last, lastEnd := walk, walk.part.geom.end;
        walk := walk.next;
        i := k + 1;
      }
      FilledLast(lastEnd, hi, kind);
      if lastEnd < hi { FreeBehind(last, Placeholder(kind, lastEnd + 1, hi)); }
    }

    lemma FilledFirst(lastEnd: int, hi: int, kind: Kind)
      ensures Filled(0, lastEnd, hi, kind) == FillFree(Parts(), lastEnd, hi, kind)
    {
      hide FillFree, PartsOf, Chain.Parts;
      assert Parts()[0..] == Parts() && Parts()[..0] == [];
    }

    lemma FilledLast(lastEnd: int, hi: int, kind: Kind)
      ensures Filled(|nodes|, lastEnd, hi, kind)
              == if lastEnd < hi then InsertAt(Parts(), |nodes|, Placeholder(kind, lastEnd + 1, hi)) else Parts()
    {
      hide PartsOf, Chain.Parts, InsertAt, FillFree;
      FillLast(Parts(), lastEnd, hi, kind);
      assert Parts()[..|nodes|] == Parts() && Parts()[|nodes|..] == [];
    }

    /** Old placeholders out, new ones in; `extra` are the new entries. */
    method Refill(lastEnd: int, hi: int, kind: Kind) returns (ghost extra: set<object>)
      requires Valid()
      modifies this, nodes`prev, nodes`next
      ensures Valid() && Parts() == FillFree(D.DropFree(old(Parts())), lastEnd, hi, kind)
      ensures fresh(extra) && forall j :: 0 <= j < |nodes| ==> nodes[j] in old(nodes) || nodes[j] in extra
    {
      hide Linked, PartsOf, Chain.Parts, FillFree, D.DropFree;
      RemoveFree();
      AddFree(lastEnd, hi, kind);
      extra := set j | 0 <= j < |nodes| && nodes[j] !in old(nodes) :: nodes[j] as object;
    }

    /** Entry `k` describes `p` from now on. */
    method SetAt(n: Node, p: Part, ghost k: nat)
      requires Valid() && k < |nodes| && nodes[k] == n
      modifies n`part
      ensures Valid() && Parts() == old(Parts())[k := p]
    {
      hide Distinct, PartsOf;
      Only(nodes, k);
      n.part := p;
    }

    /** `_disk_raw_remove` and `_disk_raw_add` as `ped_disk_set_partition_geom` uses them:
        the entry leaves the list with its links as they were, and the list it comes
        back into is a right one again. */
    method Move(part: Node, ghost k: nat)
      requires Valid() && k < |nodes| && nodes[k] == part
      modifies this, nodes`prev, nodes`next
      ensures Valid() && Parts() == Insert(RemoveAt(old(Parts()), k), part.part)
      ensures forall j :: 0 <= j < |nodes| ==> nodes[j] in old(nodes)
    {
      hide Spliced, Linked, Insert, RemoveAt, Without, PartsOf;
      SoleLinks(head, nodes, k);
      WithoutParts(nodes, k);
      WithoutAt(nodes, k);
      Remove(part, k);
      ghost var s := nodes;
      ghost var j := RawAdd(part);
      SplicedAs(s, j, part);
      SplicedAt(s, j, part);
    }
  }

  lemma SoleLinks(head: Node?, s: seq<Node>, k: nat)
    requires Linked(head, s) && k < |s|
    ensures Without(s, k) == [] ==> s[k].prev == null && s[k].next == null
  {
    WithoutAt(s, k);
  }

  /** Where an entry with that end belongs. */
  ghost predicate IsPoint(s: seq<Node>, k: nat, end: int)
    reads s`part
  {
    k <= |s| && (forall i :: 0 <= i < k ==> s[i].part.geom.start <= end) && (k < |s| ==> s[k].part.geom.start > end)
  }

  lemma PrevIs(head: Node?, s: seq<Node>, i: nat)
    requires Linked(head, s) && i < |s|
    ensures s[i].prev == PrevOf(s, i)
  {
  }

  /** Splicing a node in where it belongs is inserting what it describes. */
  lemma SplicedAs(s: seq<Node>, k: nat, part: Node)
    requires IsPoint(s, k, part.part.geom.end)
    ensures PartsOf(Spliced(s, k, part)) == Insert(PartsOf(s), part.part)
  {
    hide PartsOf, Spliced;
    SplicedParts(s, k, part);
    InsertPointIs(PartsOf(s), part.part.geom.end, k);
  }

  lemma SplicedParts(s: seq<Node>, k: nat, part: Node)
    requires k <= |s|
    ensures PartsOf(Spliced(s, k, part)) == InsertAt(PartsOf(s), k, part.part)
  {
    hide Spliced, PartsOf;
    SplicedAt(s, k, part);
    var a, b := PartsOf(Spliced(s, k, part)), InsertAt(PartsOf(s), k, part.part);
    assert |a| == |b|;
    forall i | 0 <= i < |a| ensures a[i] == b[i] {
      if i < k { assert b[i] == s[i].part; } else if i > k { assert b[i] == s[i - 1].part; }
    }
  }

  lemma WithoutParts(s: seq<Node>, k: nat)
    requires k < |s|
    ensures PartsOf(Without(s, k)) == RemoveAt(PartsOf(s), k)
  {
    hide Without, PartsOf;
    WithoutAt(s, k);
    var a, b := PartsOf(Without(s, k)), RemoveAt(PartsOf(s), k);
    assert |a| == |b|;
    forall i | 0 <= i < |a| ensures a[i] == b[i] {
      if i < k { assert b[i] == s[i].part; } else { assert b[i] == s[i + 1].part; }
    }
  }

  lemma Single(part: Node)
    ensures Spliced([], 0, part) == [part]
    ensures Linked(part, [part]) <==> part.prev == null && part.next == null
  {
  }

  // ---- the walks on what is described ------------------------------------------------------------------

  lemma DropStep(s: seq<Part>, i: nat)
    requires i < |s|
    ensures s[i].kind.IsFree() ==> s[..i] + D.DropFree(s[i..]) == RemoveAt(s, i)[..i] + D.DropFree(RemoveAt(s, i)[i..])
    ensures !s[i].kind.IsFree() ==> s[..i] + D.DropFree(s[i..]) == s[..i + 1] + D.DropFree(s[i + 1..])
  {
    hide D.DropFree;
    DropHead(s[i..]);
    assert s[i..][0] == s[i] && s[i..][1..] == s[i + 1..];
    if s[i].kind.IsFree() { RemoveSlices(s, i); } else { TakeOne(s, i, D.DropFree(s[i + 1..])); }
  }

  lemma DropHead(s: seq<Part>)
    requires s != []
    ensures D.DropFree(s) == if s[0].kind.IsFree() then D.DropFree(s[1..]) else [s[0]] + D.DropFree(s[1..])
  {
  }

  lemma RemoveSlices(s: seq<Part>, i: nat)
    requires i < |s|
    ensures RemoveAt(s, i)[..i] == s[..i] && RemoveAt(s, i)[i..] == s[i + 1..]
  {
  }

  lemma TakeOne(s: seq<Part>, i: nat, rest: seq<Part>)
    requires i < |s|
    ensures s[..i] + ([s[i]] + rest) == s[..i + 1] + rest
  {
  }

  /** One turn of the free-space loop. */
  lemma FillStep(s: seq<Part>, i: nat, lastEnd: int, hi: int, kind: Kind)
    requires i < |s|
    ensures var done := s[..i] + FillFree(s[i..], lastEnd, hi, kind);
            if s[i].geom.start > lastEnd + 1
            then var t := InsertAt(s, i, Placeholder(kind, lastEnd + 1, s[i].geom.start - 1));
                 done == t[..i + 2] + FillFree(t[i + 2..], s[i].geom.end, hi, kind)
            else done == s[..i + 1] + FillFree(s[i + 1..], s[i].geom.end, hi, kind)
  {
    var rest := FillFree(s[i + 1..], s[i].geom.end, hi, kind);
    assert s[i..][0] == s[i] && s[i..][1..] == s[i + 1..];
    if s[i].geom.start > lastEnd + 1 {
      var p := Placeholder(kind, lastEnd + 1, s[i].geom.start - 1);
      var t := InsertAt(s, i, p);
      assert t[i + 2..] == s[i + 1..];
      assert s[..i] + ([p] + [s[i]] + rest) == t[..i + 2] + rest;
    } else {
      assert s[..i] + ([] + [s[i]] + rest) == s[..i + 1] + rest;
    }
  }

  lemma FillLast(s: seq<Part>, lastEnd: int, hi: int, kind: Kind)
    ensures s + FillFree([], lastEnd, hi, kind) == if lastEnd < hi then InsertAt(s, |s|, Placeholder(kind, lastEnd + 1, hi)) else s
  {
  }
}
