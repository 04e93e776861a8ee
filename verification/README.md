# A verified model of the GNU Parted core

This project models the parts of GNU Parted that decide where partitions may go and how they
are written down, and proves what they keep. `dafny verify dfyconfig.toml` checks all of it.

- **The constraint solver** (`Geometry`, `Alignment`, `Placement`, `Constraint`). An alignment is a
  residue class, a constraint is two alignments, two ranges and a size interval. Intersection is
  exact, by Bezout coefficients and least common multiples; the solver is sound, complete up to an
  exactly stated corner, and optimal.
- **The partition table** (`PartList`, `Disk`, `DiskLayout`, `Tiling`, `Numbering`, `LabelAlign`,
  `DiskOps`, `DiskInvariant`, `Resizing`, `Requests`, `Aborting`, `Runs`, `Refused`, `Refusals`,
  `Growing`, `Probing`). Two sorted lists, one inside the other, and a counter for update mode. The msdos and bsd labels are both
  modelled; `Env` holds the label, the BIOS geometry and the geometry probed from a partition. `Sound`
  is the invariant of a table in update mode, `Complete` what a table looks like outside of it, and
  `Runs.RunKeeps` says that every run of calls keeps both, from a new label on (`Runs.FreshRuns`).
- **The object itself** (`LinkedList`, `PedDisk`, `DiskSession`). The same operations on two doubly
  linked lists: walks along `next`, splices, assignments. Each is proved to keep the links right and
  to have the effect that the functions give, so the run theorems hold of the links.
- **msdos tables on a device** (`DosTable`, `EbrWrite`, `EbrRead`, `DosDevice`, `Chs`). The entry
  layout of section 5.2.1 of the UEFI Specification, the chain of tables of the logical partitions,
  its round trip, and the recovery of a BIOS geometry from the two addresses of an entry.
- **Telling the kernel** (`KernelSync`). The two passes over the partition numbers against a kernel
  that may refuse any request.
- **Atari labels** (`Atari`, `AtariFill`, `AtariTable`). Numbers and the AHDI, XGM and ICD formats over
  every run of reads, additions, deletions and writes.
- **Snapping** (`Snap`) and **the JSON writer** (`JsonText`, `JsonRoundTrip`, `JsonWriter`) of the front
  end, the latter against a reader after RFC 8259.

Integers are mathematical; the 32-bit fields of table entries, the bytes of CHS addresses and the
64-bit bound of the alignment arithmetic are stated where they matter. C's truncating division is
`CInt.Quot`. A failed PED_ASSERT is the outcome `Crash` (or `AssertFails`, or an absent result), or a
Dafny `assert` where it cannot fail. An exception handler answers "ignore" only to the probe of an
Atari label.

## Where the code does not do what one would expect

Each of these is proved, with the exact condition or a family of inputs.

- Rounding down and rounding to nearest are wrong on some negative sectors
  (`Alignment.RoundDownMeaning`, `Alignment.RoundToNearestExact`).
- The solver rejects constraints whose last aligned end is `min_size - 1`, and misses solutions
  exactly when some start it may choose has no end (`Constraint.SolveComplete`, `Constraint.SolveAlways`,
  `Constraint.CoarseEndsMissed`); the largest-region solver returns a shorter one
  exactly when a start behind the first allows a longer region (`Constraint.SolveMaxExactly`,
  `Constraint.SolveMaxMisses`).
- While `needs_clobber` is set, which includes a new label until it is written, nothing is aligned and
  overlapping partitions are accepted (`DiskInvariant.ClobberAcceptsOverlap`); exact constraints help
  exactly under a condition on the region (`DiskInvariant.ClobberAddSound`, `DiskInvariant.ClobberSetSound`).
- Resizing the extended partition can take the table sector of a logical partition: exactly when a start
  that the label admits and that the free space holds is there (`Requests.RequestExactly`, for both
  alignments); without cylinder alignment over all requests if and only if the first one starts on the
  two sectors in front of number 5 (`Resizing.ResizeExactly`).
- The minimum start of the extended partition can come out negative, where `ped_geometry_set` fails its
  assertion, exactly as `Resizing.MinExtAsserts` says.
- The first sector of the extended partition has no entry exactly when it is empty and shorter than a
  head (`Tiling.PopCoversStart`).
- A change refused outside update mode puts the old region back after the placeholders were computed.
  The lists may then no longer tile the device (`Refusals.PrimaryRefusal`, `Refusals.TilingLost`), and on
  msdos the program can end in a failed assertion (`Aborting.PopAborts`, `Refusals.ProgramEnds`).
- Probing for the largest region of the extended partition fails its closing assertion exactly when the
  partition was widened and the label does not admit its old region (`Probing.ProbeExtended`,
  `Probing.TightFive`).
- Adding to an empty list keeps stale links of the entry added (`LinkedList.Chain.RawAdd`).
- A kernel that refuses to add a partition with ENXIO is not reported (`KernelSync.QuietExactly`).
- The JSON writer ends with a failed assertion exactly when a scalar is a member of the root
  (`JsonWriter.RootRoundTrip`).
- Snapping with one end fixed to an old region can end with its start behind its end, exactly when the
  other end prefers to go past it (`Snap.MeetExactly`, `Snap.FixedEndCrosses`); the only caller passes
  no old region.

## Model

| member | source | states |
|---|---|---|
| `Geometry.Make` | libparted/cs/geom.c:57-68 | a region exists exactly when its length is at least 1, begins at the given start and has that length |
| `Geometry.IntersectExact` | libparted/cs/geom.c:119-136 | a sector lies in the intersection exactly when it lies in both regions, absence being the empty region |
| `Geometry.OverlapMeaning` | libparted/cs/geom.c:204-219 | the overlap test is true exactly when some sector belongs to both regions |
| `Alignment.AbsModMeaning` | libparted/cs/natmath.c:59-66 | `abs_mod` differs from the mathematical remainder exactly on negative multiples, where it gives the grain itself |
| `Alignment.RoundUpMeaning` | libparted/cs/natmath.c:80-84 | rounding up gives the least multiple not below, for every integer |
| `Alignment.RoundDownMeaning` | libparted/cs/natmath.c:71-75 | rounding down gives the greatest multiple not above if and only if the sector is not a negative multiple |
| `Alignment.RoundToNearestExact` | libparted/cs/natmath.c:90-97 | rounding to nearest gives a nearest multiple if and only if a condition on the sector holds; it always does for sectors from 0 on |
| `Alignment.Bezout` | libparted/cs/natmath.c:199-217 | the coefficients combine the arguments into the result, which is positive and divides both |
| `Alignment.GcdIsGreatest` | libparted/cs/natmath.c:199-217 | every common divisor divides the result of the extended algorithm |
| `Alignment.GcdAgrees` | libparted/cs/natmath.c:102-115 | the plain and the extended algorithm compute the same divisor |
| `Alignment.BezoutBound` | libparted/cs/natmath.c:199-217 | the coefficients are bounded by the arguments divided by their gcd |
| `Alignment.AlignedMeaning` | libparted/cs/natmath.c:463-479 | a sector is aligned exactly when it is the offset plus a multiple of the grain, a grain of 0 meaning the one sector |
| `Alignment.NewKeepsClass` | libparted/cs/natmath.c:127-160 | reducing the offset on creation does not change which sectors are aligned |
| `Alignment.LcmExact` | libparted/cs/natmath.c:325-330 | the new grain divides a number exactly when both grains do |
| `Alignment.IntersectExact` | libparted/cs/natmath.c:219-338 | a sector satisfies the intersection exactly when it satisfies both alignments, absence being the empty class |
| `Alignment.PointStaysPoint` | libparted/cs/natmath.c:310-323 | intersecting with a single sector leaves at most a single sector |
| `Alignment.IntersectFits` | libparted/cs/natmath.c:294-338 | for grains up to 2^20 with reduced offsets every intermediate value fits a signed 64-bit word and the arguments of `extended_euclid` fit an `int` |
| `Placement.UpFromMeaning` | libparted/cs/natmath.c:378-398 | before the region is applied, aligning up gives the least aligned sector not below |
| `Placement.DownFromMeaning` | libparted/cs/natmath.c:406-424 | before the region is applied, aligning down gives the greatest aligned sector not above, except exactly for aligned sectors below the offset, where it gives one a grain lower |
| `Placement.ClosestInsideMeaning` | libparted/cs/natmath.c:343-372 | clamping an aligned sector into a region finds it, the first or the last fitting sector, or -1 when none fits |
| `Placement.NearestExact` | libparted/cs/natmath.c:447-456 | the result is -1 exactly when nothing in the region is aligned, and otherwise aligned, inside and at minimum distance, for every integer |
| `Placement.DownFromStart` | libparted/cs/natmath.c:406-424 | aligning the region's start down finds the first fitting sector, which the solver's end range relies on |
| `Placement.UpFromEnd` | libparted/cs/natmath.c:378-398 | aligning the region's end up finds the last fitting sector |
| `Constraint.IntersectExact` | libparted/cs/constraint.c:205-256 | a region solves the intersection exactly when it solves both constraints |
| `Constraint.FromMaxMeaning` | libparted/cs/constraint.c:167-177 | the solutions are exactly the regions inside the given one |
| `Constraint.FromMinMaxMeaning` | libparted/cs/constraint.c:122-145 | the solutions are exactly the regions between the two given ones |
| `Constraint.AnyMeaning` | libparted/cs/constraint.c:486-504 | the solutions are exactly the regions on the device |
| `Constraint.ExactMeaning` | libparted/cs/constraint.c:509-534 | the only solution is the given region |
| `Constraint.SolveSound` | libparted/cs/constraint.c:410-436 | whatever the solver returns is a solution and lies on the device |
| `Constraint.SolveComplete` | libparted/cs/constraint.c:293-436 | with fine ends on the device the solver returns nothing if and only if there is no solution or the last aligned end is `min_size - 1` |
| `Constraint.SolveFinds` | libparted/cs/constraint.c:335-436 | the start is nearest among the starts of all solutions and the end is nearest among the ends for that start |
| `Constraint.SolveExactly` | libparted/cs/constraint.c:410-436 | with the ends on the device a request is met if and only if the start chosen for it has an end |
| `Constraint.SolveAlways` | libparted/cs/constraint.c:293-436 | a satisfiable constraint is solved for every request if and only if every aligned start of the canonical range has an end; fine ends are enough |
| `Constraint.CoarseEndsMissed` | libparted/cs/constraint.c:293-330 | without fine ends the solver misses solutions: a family of constraints with a solution for which it returns nothing |
| `Constraint.ExactPinned` | libparted/cs/constraint.c:509-534 | an exact constraint pins its region: both alignments are single sectors |
| `Constraint.PinnedIntersect` | libparted/cs/constraint.c:205-256 | narrowing a pinned constraint by one that admits the region keeps it pinned |
| `Constraint.PinnedSolved` | libparted/cs/constraint.c:410-436 | the one solution of a pinned constraint is found from any region asked for |
| `Constraint.SolveMaxExactly` | libparted/cs/constraint.c:444-455 | of a constraint with a solution, the region found is at least as long as every solution if and only if no aligned start of the canonical range allows a longer one than the first |
| `Constraint.SolveMaxLongest` | libparted/cs/constraint.c:444-455 | so it is when both alignments are "any" or the maximum size does not cut |
| `Constraint.SolveMaxMisses` | libparted/cs/constraint.c:444-455 | a family of constraints on which it returns a shorter region |
| `PartList.InsertOrdered` | libparted/disk.c:1890-1924 | inserting a region apart from the others keeps the list sorted and disjoint |
| `PartList.InsertRemoved` | libparted/disk.c:1865-1924 | adding back a removed partition gives the same list |
| `PartList.GapIsFree` | libparted/disk.c:1926-1972 | every region inside the overlap constraint is apart from all other entries |
| `PartList.GapAround` | libparted/disk.c:1926-1972 | a start between the neighbours of a partition gives exactly the stretch between them |
| `PartList.GapHolds` | libparted/disk.c:1926-1972 | a region apart from all entries lies in the stretch computed for its start |
| `PartList.FillTiles` | libparted/disk.c:1064-1150 | the free-space loop turns a sorted disjoint list into one that covers its range without holes or overlaps |
| `PartList.FillKeepsActives` | libparted/disk.c:1064-1150 | filling adds no partition and moves none |
| `PartList.TilesCover` | libparted/disk.c:1783-1802 | a tiling has exactly one entry on each sector of its range |
| `LinkedList.Chain.InsertBefore` | libparted/disk.c:1824-1845 | the links after the splice are those of the sequence with the entry put in |
| `LinkedList.Chain.InsertAfter` | libparted/disk.c:1847-1861 | the same behind an entry |
| `LinkedList.Chain.Remove` | libparted/disk.c:1863-1885 | the links after the splice are those of the sequence without the entry; the entry's own links stay as they were |
| `LinkedList.Chain.RawAdd` | libparted/disk.c:1890-1924 | the entry goes to its sorted place, and the links are right if and only if the list was not empty or the entry had no links of its own |
| `LinkedList.Chain.AddPart` | libparted/disk.c:1890-1924 | a new entry: the links are right and what they hold is the sorted insertion whose order is proved |
| `LinkedList.Chain.RemovePart` | libparted/disk.c:1863-1885 | the links are right and hold the list without the entry |
| `LinkedList.Chain.Move` | libparted/disk.c:2329-2331 | removing and re-adding an entry always gives a rightly linked list that holds the sorted insertion into the rest |
| `LinkedList.Chain.Extended` | libparted/disk.c:1687-1699 | the walk along `next` finds the first extended partition or ends |
| `LinkedList.Chain.LastNum` | libparted/disk.c:687-702 | the walk computes the largest number |
| `LinkedList.Chain.Stretch` | libparted/disk.c:1926-1972 | the walk, with its pointer comparison, computes the stretch proved free |
| `LinkedList.Chain.RemoveFree` | libparted/disk.c:1045-1062 | the walk unlinks exactly the free-space placeholders |
| `LinkedList.Chain.AddFree` | libparted/disk.c:1064-1150 | the walk links in the placeholders of the filled list whose tiling is proved |
| `Disk.TraversalVisitsAll` | libparted/disk.c:1710-1727 | the walk visits exactly the entries of the table |
| `Disk.NextFree` | libparted/labels/dos.c:2511-2535 | the number found is the least free one of the range, and none is found exactly when all are taken |
| `PedDisk.StepsTraverse` | libparted/disk.c:1710-1727 | stepping from entry to entry follows the traversal order to its end |
| `PedDisk.PedDisk.Next` | libparted/disk.c:1710-1727 | the entry reached along the links is the next one of the depth-first order |
| `PedDisk.PedDisk.GetPartition` | libparted/disk.c:1762-1778 | the walk finds the first entry with the number, or none exactly when there is none |
| `PedDisk.PedDisk.RawAdd` | libparted/disk.c:1890-1924 | both linked lists stay right and disjoint, and the one of the entry's level holds the sorted insertion |
| `PedDisk.PedDisk.RawRemove` | libparted/disk.c:1863-1885 | both linked lists stay right and disjoint, and hold all entries but the one unlinked |
| `PedDisk.PedDisk.Requeue` | libparted/disk.c:2329-2331 | the same for an entry that leaves its list and comes back where it belongs by now |
| `PedDisk.PedDisk.RemoveFreespace` | libparted/disk.c:1045-1062 | both lists lose their free-space placeholders and nothing else |
| `PedDisk.PedDisk.AllocFreespace` | libparted/disk.c:1064-1150 | both lists get the placeholders of the tiling |
| `PedDisk.PedDisk.NextFreeNumber` | libparted/labels/dos.c:2511-2535 | the loop finds the least free number of the range |
| `PedDisk.PedDisk.EnumeratePartitions` | libparted/disk.c:977-1009 | both loops have the effect for which compaction is proved |
| `PedDisk.PedDisk.RemoveMetadata` | libparted/disk.c:1011-1032 | all metadata placeholders are unlinked one by one, with a renumbering after each |
| `PedDisk.PedDisk.PushUpdateMode` | libparted/disk.c:1155-1177 | the links hold what entering update mode is proved to restore |
| `PedDisk.PedDisk.AddLogicalMetadata` | libparted/labels/dos.c:2328-2366 | the loop, which looks at `prev`, adds the placeholders for which the tables are proved to fit, or fails its assertion |
| `PedDisk.PedDisk.PopUpdateMode` | libparted/disk.c:1179-1207 | the links hold what leaving update mode is proved to complete, or an assertion fails |
| `PedDisk.PedDisk.OverlapConstraint` | libparted/disk.c:1926-1972 | the walk gives the constraint whose solutions are apart from all other entries |
| `PedDisk.PedDisk.SpaceForTables` | libparted/labels/dos.c:2069-2107 | the two walks along `next` compute the stretch that leaves room for the tables |
| `PedDisk.PedDisk.MinExtended` | libparted/labels/dos.c:1965-1998 | the walk computes the minimum region of the extended partition |
| `PedDisk.TryHeads` | libparted/labels/dos.c:2129-2149 | the loop over the heads ends with the best of the places tried |
| `PedDisk.PedDisk.AlignPart` | libparted/labels/dos.c:2253-2297 | the label's walks and loops choose the place for which soundness is proved |
| `PedDisk.PedDisk.AddPartition` | libparted/disk.c:2115-2175 | on the links, the call has the effect for which soundness is proved |
| `PedDisk.PedDisk.SetPartitionGeom` | libparted/disk.c:2290-2346 | on the links, the call has the effect for which soundness is proved, the late restoring of the old region included |
| `PedDisk.PedDisk.DeletePartition` | libparted/disk.c:2205-2245 | on the links, the call has the effect for which soundness is proved |
| `PedDisk.PedDisk.NewFresh` | libparted/disk.c:368-394 | a new label on the links, out of update mode and marked as new |
| `DiskLayout.AllocMetaDresses` | libparted/labels/dos.c:2471-2509 | on a sound table the placeholders go in without a failed assertion, every partition stays, and each logical one but number 5 gets a placeholder right before it |
| `DiskLayout.AddLogMetasTables` | libparted/labels/dos.c:2328-2366 | the loop over the logical numbers gives each partition but number 5 its placeholder; `metadata_length > 0` always holds |
| `Tiling.PopComplete` | libparted/disk.c:1179-1207 | leaving update mode on a sound table never fails an assertion and leaves a complete one: the lists tile the device and the extended partition |
| `Tiling.PushRestores` | libparted/disk.c:1155-1177 | entering update mode gives back exactly the partitions, whatever the placeholders |
| `Tiling.PopThenPush` | libparted/disk.c:1155-1207 | leaving and re-entering update mode is the identity on sound tables |
| `Tiling.PopCoversStart` | libparted/labels/dos.c:2494-2505 | behind update mode the first sector of the extended partition has an entry if and only if there is a logical partition or it is as long as a head |
| `Tiling.PopHolds` | libparted/disk.c:1179-1207 | leaving update mode keeps the sequence of partitions even when they overlap |
| `Numbering.EnumerateStable` | libparted/disk.c:977-1009 | a compact numbering is a fixed point of renumbering |
| `Numbering.RemoveLeavesHole` | libparted/disk.c:2186-2199 | taking out a logical partition leaves exactly one hole in the numbers |
| `Numbering.EnumerateCloses` | libparted/disk.c:977-1009 | renumbering closes the hole: numbers above it move down by one, primary numbers stay, logical ones are 5..4+n again |
| `Numbering.ClosedNums` | libparted/labels/dos.c:2511-2556 | closing the hole keeps the order of the numbers |
| `LabelAlign.AlignSound` | libparted/labels/dos.c:2253-2297 | every place the label chooses solves the caller's constraint, avoids sector 0 and keeps the table sectors of logical partitions free |
| `LabelAlign.TrySound` | libparted/labels/dos.c:1748-1763 | a place found under the label's constraint solves both constraints |
| `LabelAlign.AlignLogicalSound` | libparted/labels/dos.c:2109-2159 | the same for every head tried for a logical partition |
| `LabelAlign.AlignPrimarySound` | libparted/labels/dos.c:2000-2032 | the same for the cylinder-aligned choices for primary partitions |
| `DiskInvariant.MetaSpaceRoom` | libparted/labels/dos.c:2069-2107 | inside the stretch there is room for the table of the partition and of its neighbours |
| `DiskInvariant.OverlapApart` | libparted/disk.c:1926-1972 | a region inside the overlap constraint is apart from all other partitions |
| `DiskInvariant.NewNumber` | libparted/labels/dos.c:2511-2556 | a new primary number is free and in range, a new logical one continues the compact numbering |
| `DiskInvariant.AddSound` | libparted/disk.c:2115-2175 | adding keeps the table sound wherever solver and label put the partition; on a new label, which aligns nothing, for exact regions that need no aligning |
| `DiskInvariant.ClobberAddOrdered` | libparted/disk.c:942-957 | while `needs_clobber` is set nothing is aligned: the lists stay in order if and only if the region asked for is apart from the others |
| `DiskInvariant.ClobberExactApart` | libparted/disk.c:2131-2147 | there an exact constraint makes the emptiness test a test for overlaps |
| `DiskInvariant.ClobberAddSound` | libparted/disk.c:942-957 | there an addition under an exact constraint keeps the table sound if and only if the region avoids sector 0 and leaves room for the tables of logical partitions |
| `DiskInvariant.ClobberSetSound` | libparted/disk.c:942-957 | the same for a change, the extended partition included |
| `DiskInvariant.ClobberAcceptsOverlap` | libparted/disk.c:942-957 | without an exact constraint an overlapping partition is accepted: a table and a region |
| `DiskInvariant.SetGeomSound` | libparted/disk.c:2290-2338 | moving or resizing any partition but the extended one keeps the table sound; on a new label for exact regions that need no aligning |
| `DiskInvariant.SetGeomExtended` | libparted/disk.c:2290-2338 | changing the extended partition keeps order, nesting and numbers in any case |
| `DiskInvariant.RefusedLeaves` | libparted/disk.c:2305-2340 | a refused change leaves the table as it was, or with the region asked for or chosen in place of the old one, and which of them |
| `Resizing.MinExtStart` | libparted/labels/dos.c:1965-1998 | the minimum start of the extended partition in terms of the first logical partition and number 5 |
| `Resizing.MinExtAsserts` | libparted/labels/dos.c:1976-1993 | `ped_geometry_set` fails its assertion on a negative start if and only if number 5 has less than a head in front of it, or the first logical partition lies before that head and has less than two |
| `Resizing.LatestNonNegative` | libparted/labels/dos.c:1976-1993 | with heads of one sector, as without cylinder alignment, it never does on a sound table |
| `Requests.AdmittedIs` | libparted/labels/dos.c:1817-1905 | the regions that the label admits for an extended partition around its logical ones, in closed form for both of its constraints and both alignments |
| `Requests.RequestKeeps` | libparted/labels/dos.c:2180-2226 | every accepted change of an extended partition keeps the table sound when neither the first logical partition's first sector nor that of its table can be reached |
| `Requests.RequestExactly` | libparted/labels/dos.c:2180-2226 | with either alignment and for any request, no constraint lets it spoil the table if and only if that guard holds |
| `Requests.SafeImplies` | libparted/labels/dos.c:1985-1993 | a simpler guard, on the places of the first logical partition and of number 5 alone, implies it |
| `Resizing.ResizeBreaks` | libparted/labels/dos.c:2180-2226 | where the guard fails, a region is accepted that takes the table sector of the first logical partition |
| `Resizing.ResizeExactly` | libparted/labels/dos.c:2180-2226 | without cylinder alignment every accepted change is sound if and only if the guard holds |
| `Resizing.ShrinkExactly` | libparted/labels/dos.c:2000-2032 | with either alignment, shrinking to exactly a region is accepted if and only if one of the label's constraints admits it and it holds all logical partitions, and is then sound if and only if it leaves the first table sector |
| `DiskInvariant.DeleteLogical` | libparted/disk.c:2186-2223 | deleting a logical partition keeps the others' places and order of numbers, and the table sound |
| `DiskInvariant.DeletePrimary` | libparted/disk.c:2186-2223 | deleting a primary partition changes no other number or place |
| `DiskInvariant.DeleteExtended` | libparted/disk.c:2205-2245 | deleting the extended partition takes its logical ones and keeps the primary ones |
| `Aborting.LoopAborts` | libparted/labels/dos.c:2328-2366 | whether the loop of the label fails its assertion depends on the logical list, the extended region and the geometry alone |
| `Aborting.LeftAborts` | libparted/labels/dos.c:2353-2365 | with one logical partition of a sound table left anywhere, the assertion fails if and only if what happens at it and at the next one says so, all placeholders inserted on the way accounted for |
| `Aborting.TidyAborts` | libparted/labels/dos.c:2353-2365 | with the extended partition left anywhere, it fails if and only if the first logical partition has no room and all smaller numbers pass |
| `Aborting.PopAborts` | libparted/disk.c:1179-1207 | leaving update mode with any partition of a sound table left anywhere fails an assertion if and only if one of these conditions holds; never on bsd, never for a primary partition that is not extended |
| `Runs.StepSimulates` | libparted/disk.c:2115-2346 | each call acts on the partitions like its update-mode core; an assertion fails if and only if the call is fatal; the lists tile behind it unless a change was refused with its region overwritten |
| `Runs.RunKeeps` | libparted/disk.c:2115-2346 | over every run of additions, changes, deletions and commits, refused ones included, the partitions stay sorted, disjoint, nested, numbered and spaced, and the lists tile the device unless the last change was refused with its region overwritten |
| `Runs.FreshGood` | libparted/disk.c:368-394 | a new label, with `needs_clobber` set, is a complete and sound start of a run |
| `Runs.FreshRuns` | libparted/disk.c:368-510 | the run theorem for every run on a new label, before and after its first commit |
| `Runs.RefusedStep` | libparted/disk.c:2340-2346 | a refused change without a common solution leaves a complete table on either label; any other leaves every partition as it was or ends the program, and when |
| `Runs.RefusedHolds` | libparted/disk.c:2340-2346 | a refused change leaves every partition as it was |
| `Runs.RefusedInside` | libparted/disk.c:2340-2346 | a refused change in update mode leaves the table exactly as it was |
| `Refused.RefusedTiling` | libparted/disk.c:1064-1150 | on either label, the placeholders computed with a primary partition at another place tile the device, once it is back, if and only if it starts and ends where it was taken to |
| `Refused.LogsUnmoved` | libparted/disk.c:1064-1150 | the list of the logical partitions comes out the same |
| `Refusals.PrimaryRefusal` | libparted/disk.c:2340-2346 | a change of a primary partition refused on either label leaves a complete table if and only if there was no common solution or that condition holds of the region left behind |
| `Refusals.TilingLost` | libparted/disk.c:2340-2346 | on either label a refused call that loses the tiling, for every table whose first partition starts behind sector 1 |
| `Refusals.ProgramEnds` | libparted/labels/dos.c:2361-2362 | a refused call that fails `metadata_length > 0`, for every logical partition but number 5 that lies behind another |
| `Runs.BySectorUnique` | libparted/disk.c:1783-1802 | on a complete table the lookup finds the one entry of a sector that is not the extended partition; a sector of the device has none only where the first sector of the extended partition is not covered |
| `DiskSession.Start` | libparted/disk.c:368-394 | a new object is rightly linked and a valid start of a run |
| `DiskSession.Perform` | libparted/disk.c:2115-2346 | one call on the linked object keeps its links and the invariant of the run theorem, and ends the program exactly in the fatal calls |
| `Growing.WidestStays` | libparted/disk.c:2355-2408 | asking for the widest region keeps the partition between its neighbours |
| `Growing.ExactBack` | libparted/disk.c:2436-2439 | asked for exactly an acceptable place, the partition is put there |
| `Probing.ProbeRestores` | libparted/disk.c:2417-2445 | for any partition but the extended one, from outside update mode the probe for the largest region never fails an assertion, its closing one included, and leaves a complete table, after a success that of the same partitions |
| `Probing.ProbeExtended` | libparted/disk.c:2417-2445 | for the extended partition the closing assertion holds if and only if the label admits its old region or did not widen it, and the partitions then are as before |
| `Probing.TightFive` | libparted/disk.c:2438-2440 | a family of tables whose old region is not admitted: number 5 right behind the first sector of the extended partition |
| `Growing.MaxGeometryRestores` | libparted/disk.c:2417-2445 | a successful probe for the largest region leaves every partition as it was, and its closing assertion holds, for every partition but the extended one on both labels |
| `DosTable.Le32RoundTrip` | libparted/labels/dos.c:344-352 | little-endian words read back |
| `DosTable.EntryRoundTrip` | libparted/labels/dos.c:344-352 | table entries read back |
| `DosTable.TableRoundTrip` | libparted/labels/dos.c:354-360 | each entry put into a sector is read from it, and the signature is right |
| `EbrWrite.TablesChained` | libparted/labels/dos.c:1345-1392 | outside update mode each logical partition has its table sector before it inside the extended partition, and all of them are distinct |
| `EbrWrite.TablesOutside` | libparted/labels/dos.c:1370-1388 | no table sector lies in a logical partition |
| `EbrWrite.TablesOffPrimaries` | libparted/labels/dos.c:1370-1388 | nor in a primary partition other than the extended one |
| `EbrWrite.WriteExtWrites` | libparted/labels/dos.c:1345-1392 | the recursion writes each table on its sector and no other sector |
| `EbrWrite.WriteTableWrites` | libparted/labels/dos.c:1432-1482 | sector 0 and the chain hold exactly the entries of the partitions |
| `EbrRead.FillParse` | libparted/labels/dos.c:1101-1128 | an entry parses back to the partition it was filled from |
| `EbrRead.LogJoins` | libparted/labels/dos.c:1195-1215 | the next partition of the chain fits the table read so far and gets its old number |
| `EbrRead.ReadOwn` | libparted/labels/dos.c:1170-1222 | the first loop on a table of the chain adds exactly its partition |
| `EbrRead.ReadChain` | libparted/labels/dos.c:1224-1245 | the chain is read to its end, in whatever order the partitions lie |
| `EbrRead.WrittenIsReadable` | libparted/labels/dos.c:1432-1482 | writing puts on the device what reading relies on |
| `EbrRead.RoundTrip` | libparted/labels/dos.c:1131-1255 | writing a table and reading it into a fresh label gives the same partitions, numbers, regions, types and boot flags, and recursion no deeper than the number of logical partitions |
| `DosDevice.WriteExtTable` | libparted/labels/dos.c:1345-1392 | the recursion on the device has the specified effect |
| `DosDevice.WriteExtendedPartitions` | libparted/labels/dos.c:1414-1429 | the chain or the empty table is written as specified |
| `DosDevice.WriteMsdos` | libparted/labels/dos.c:1432-1482 | the device is as specified after success, and failure is reported exactly when a sector is missing |
| `DosDevice.AddRead` | libparted/labels/dos.c:1202-1215 | a partition that was read is added under an exact constraint |
| `DosDevice.ReadTableFrom` | libparted/labels/dos.c:1131-1255 | reading a table and everything nested in it has the specified outcome and effect |
| `DosDevice.ReadEntries` | libparted/labels/dos.c:1170-1222 | the first loop has the specified outcome and effect |
| `DosDevice.ReadNestedTables` | libparted/labels/dos.c:1224-1245 | the second loop has the specified outcome and effect |
| `DosDevice.WriteThenRead` | libparted/labels/dos.c:1131-1482 | writing and reading back on one device gives the same partitions |
| `Chs.PackUnpack` | libparted/labels/dos.c:632-698 | cylinder, head and sector survive packing into three bytes |
| `Chs.ChsRoundTrip` | libparted/labels/dos.c:651-698 | unpacking inverts packing on the first 1022 cylinders and gives 0 beyond |
| `Chs.SolvedSizes` | libparted/labels/dos.c:944-990 | the elimination finds the cylinder and head sizes that solve both equations |
| `Chs.ProbeFinds` | libparted/labels/dos.c:874-1017 | when both addresses of an entry agree with a geometry and determine it, the probe returns it |
| `Chs.ProbeAgrees` | libparted/labels/dos.c:998-1011 | whatever geometry is returned agrees with both addresses, the last one possibly a cylinder short |
| `Chs.GeometryUnique` | libparted/labels/dos.c:944-990 | two geometries that agree with the same entry are equal |
| `Chs.EntryRecovers` | libparted/labels/dos.c:1289-1322 | an entry filled under a geometry gives that geometry back |
| `KernelSync.QuietMeansSynced` | libparted/arch/linux.c:3135-3209 | when nothing is reported about a number the kernel has what the disk has, or refused the addition with ENXIO |
| `KernelSync.QuietExactly` | libparted/arch/linux.c:3135-3209 | when queries are answered, the unreported refusal is the only exception, in both directions |
| `KernelSync.SilentRefusal` | libparted/arch/linux.c:3198-3209 | a new partition whose addition is refused with ENXIO is silently missing |
| `KernelSync.MissingIsMissing` | libparted/arch/linux.c:3158-3166 | a removal that ends in ENXIO means that the partition is not there |
| `KernelSync.RemoveRetrying` | libparted/arch/linux.c:3153-3164 | the retry loop answers like its specification and touches one number |
| `KernelSync.RemoveOne` | libparted/arch/linux.c:3135-3167 | one turn of the first pass |
| `KernelSync.AddOne` | libparted/arch/linux.c:3172-3203 | one turn of the second pass |
| `KernelSync.RemoveAll` | libparted/arch/linux.c:3135-3167 | the first pass brings every number into its specified state and never disturbs a matching partition |
| `KernelSync.AddAll` | libparted/arch/linux.c:3168-3203 | the same for the second pass |
| `KernelSync.AnyBad` | libparted/arch/linux.c:3205-3219 | the warning loop reports exactly the numbers that failed |
| `KernelSync.SyncPartTable` | libparted/arch/linux.c:3075-3238 | success without an exception means that the kernel has the disk's table for every non-extended number up to the limit, the unreported refusals aside; a matching partition is unchanged in every intermediate state |
| `Snap.PreferSnap` | parted/parted.c:323-375 | the move chosen is to the nearest usable boundary, ties to the sector's own side; distances are not negative |
| `Snap.PreferredUnique` | parted/parted.c:312-321 | there is only one such move |
| `Snap.SnapTo` | parted/parted.c:291-299 | the sector changes exactly when the target is in range |
| `Snap.Choose` | parted/parted.c:421-456 | both ends make their preferred moves unless they would cross, results stay in range, and start <= end unless exactly one end is fixed to an old region |
| `Snap.SnappedUnique` | parted/parted.c:421-456 | the outcome is determined |
| `Snap.MeetExactly` | parted/parted.c:421-456 | the snapped start is not behind the end if and only if a condition on the sectors that the free ends prefer holds |
| `Snap.SnapToBoundaries` | parted/parted.c:384-457 | on a complete table both sectors are found if and only if they have an entry, the results stay in range, and the last assertion holds if and only if the ends meet |
| `Snap.FixedEndCrosses` | parted/parted.c:404-411 | a case in which they do not |
| `JsonText.QuotedReads` | parted/jsonwrt.c:30-100 | a quoted string reads back under section 7 of RFC 8259, in lower case if written so |
| `JsonText.NumberReads` | parted/jsonwrt.c:203-209 | a printed number reads back |
| `JsonRoundTrip.ValueReads` | parted/jsonwrt.c:121-225 | the text of every value reads back, at any depth and whatever follows it |
| `JsonRoundTrip.RootReads` | parted/jsonwrt.c:121-179 | the text of a whole tree parses back to it with names in lower case |
| `JsonWriter.WrittenIs` | parted/jsonwrt.c:121-225 | below the root the calls for a value put out a separator if due, its name and its text |
| `JsonWriter.RootRoundTrip` | parted/jsonwrt.c:121-179 | writing a root object runs through if and only if its members are all objects or arrays, and then its text parses back to the tree with names in lower case |
| `JsonWriter.Writer.Indent` | parted/jsonwrt.c:113-119 | the indentation put out |
| `JsonWriter.Writer.PutQuoted` | parted/jsonwrt.c:30-100 | the loop over the characters puts out the quoted string |
| `JsonWriter.Writer.Open` | parted/jsonwrt.c:121-149 | the new state of the writer |
| `JsonWriter.Writer.Close` | parted/jsonwrt.c:151-179 | the new state of the writer |
| `JsonWriter.Writer.PutScalar` | parted/jsonwrt.c:192-225 | the new state of the writer |
| `JsonWriter.WriteTree` | parted/jsonwrt.c:106-225 | the text written for a tree parses back to it |
| `Atari.OldFits` | libparted/labels/atari.c:1742-1769 | a partition that has its number never conflicts and its format suits the table |
| `Atari.NewFits` | libparted/labels/atari.c:1742-1769 | the format chosen for a new partition suits the table with it |
| `Atari.RaisedTidy` | libparted/labels/atari.c:1691-1703 | moving numbers up keeps them distinct and the logical ones together, and frees the number after the last logical one |
| `AtariTable.CompactedTidy` | libparted/disk.c:977-1009 | closing the gaps keeps the logical numbers together |
| `AtariTable.AtariDisk.ChooseFormat` | libparted/labels/atari.c:1717-1769 | the three assertions hold, and the format is chosen or refused as specified |
| `AtariTable.AtariDisk.Renumber` | libparted/labels/atari.c:1814-1821 | the least free number below is taken |
| `AtariTable.AtariDisk.EnumerateAll` | libparted/disk.c:977-1009 | the numbers are closed up in their order while the format keeps suiting the table |
| `AtariTable.AtariDisk.Delete` | libparted/disk.c:2186-2245 | deleting in update mode keeps the invariant; the extended partition takes its logical ones with it |
| `AtariTable.AtariDisk.EnterUpdateMode` | libparted/disk.c:1011-1032 | entering update mode closes the gaps between the numbers and keeps the invariant |
| `AtariTable.AtariDisk.DeletePartition` | libparted/disk.c:2205-2245 | the same from outside update mode, with the gaps closed before |
| `AtariTable.AtariDisk.RoomForLogic` | libparted/labels/atari.c:1668-1706 | exactly the normal partitions after the last logical one move up |
| `AtariTable.AtariDisk.Add` | libparted/labels/atari.c:1773-1824 | an addition in update mode, failed or not, keeps the invariant; the number given is the least free one |
| `AtariTable.AtariDisk.AddPartition` | libparted/disk.c:2115-2175 | the same from outside update mode, with the gaps closed before the number is chosen |
| `AtariTable.AtariDisk.ReadLogicals` | libparted/labels/atari.c:577-631 | the chain is read with consecutive numbers |
| `AtariTable.AtariDisk.Read` | libparted/labels/atari.c:633-714 | reading any table keeps the invariant and gives consecutive numbers, or leaves an empty table; a failed probe may be ignored |
| `AtariTable.AtariDisk.Write` | libparted/labels/atari.c:1018-1193 | the assertions hold, no complaint about left-over partitions is raised, every primary partition gets exactly one entry, and ICD or XGM is left exactly when not needed |
| `AtariFill.FillAhdi` | libparted/labels/atari.c:1066-1111 | with room for all, the loop puts every primary partition into exactly one AHDI entry |
| `AtariFill.FillIcd` | libparted/labels/atari.c:1150-1180 | the loop puts the rest into the ICD entries |
| `AtariFill.FillOne` | libparted/labels/atari.c:1069-1111 | one turn of the loop keeps what is placed and needs one entry less |

## Left out

- Device I/O, ioctls, device-mapper, sysfs and retry delays; a device is an array of sectors and the
  kernel a map that answers each request.
- Memory management, translations, exception texts, debugging code and the interactive front end.
- `unit.c`, file-system probing, flag and type tables, UUIDs and boot code: the boot code and disk
  signature on sector 0 are a parameter of the write.
- Several devices at once: a table lives on one device.
- Answers "ignore" to exceptions, except to the probe of an Atari label.
- The msdos branch for LDM partitions (type 0x42), which reads the disk.
- Tables of foreign programs: reading is modelled on any device, with a bound on its depth because
  a table may point back to itself, but only tables that were written here are proved to be read.
- A bare `ped_disk_remove_partition` on msdos, which allocates metadata before it renumbers.
- Refused.RefusedTiling: the tiling after a refusal with the region overwritten is characterised for
  primary partitions other than the extended one; for that and for logical partitions the partitions are
  proved unchanged (`Runs.RefusedStep`) and exactly when the program ends (`Aborting.PopAborts`).
- The alignment functions of Atari labels, their bad-sector list, checksums and the contents of the
  logical chain; only numbers, formats and which partition gets which entry are modelled.
- The dasd, dvh, aix, gpt, mac, sun, pc98, amiga and loop labels.
- The locale-dependent case mapping of JSON names beyond ASCII, which is left as it is, and raw values.
- Number texts other than unsigned integers in the JSON reader.
- Runs.RunKeeps: the calls are those that keep a table sound: on a new label exact regions that need no
  aligning (both directions in `DiskInvariant.ClobberAddSound`, `DiskInvariant.ClobberSetSound`), and
  changes of the extended partition under the guard of both directions in `Requests.RequestExactly`.
- Resizing.MinExtAsserts: where that assertion fails, the model goes on with the negative start.
- Probing.ProbeRestores: `needs_clobber` is not set, and the nested update mode inside
  `ped_disk_maximize_partition` is one step; the extended partition is in `Probing.ProbeExtended`.
- Probing.ProbeExtended: the widest region around the partition is a safe request, so that the table in
  between is sound.
- PedDisk.PedDisk.Look: the checks of a partition and the placeholders at both ends of the device are
  computed from values gathered by one walk along the links; handles are positions in the lists.
- EbrRead.RoundTrip: the CHS bytes of the entries are an arbitrary function of their region and are
  not part of what is compared; `Chs.EntryRecovers` is about them.
- Chs.EntryRecovers: the entry is a new one; an entry that keeps its old CHS bytes is not modelled.
- KernelSync.SyncPartTable: the extended partition, of which the kernel is told a few sectors only, is
  excluded from the comparison.
- AtariTable.AtariDisk.Read: what `atari_probe` says and whether a failure is ignored are parameters, and so
  is which raw entries are valid.
- AtariTable.AtariDisk.AddPartition: whether a partition is accepted after its number was found is a parameter.
