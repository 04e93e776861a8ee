/** A client's calls on the disk object, one after the other. */
module DiskSession {
  import A = Alignment
  import opened Disk
  import opened Tiling
  import opened DiskOps
  import opened Runs
  import P = PedDisk

  /** A new label. */
  method Start(len: int, env: Env) returns (disk: P.PedDisk, fine: bool, ghost core: Disk)
    requires 2 <= len <= A.INT64_MAX && env.Valid()
    ensures fine && fresh(disk) && disk.Valid() && Good(disk.Now(), core, env) && Complete(disk.Now(), core)
  {
    hide Good, Complete, DiskOps.Fresh, P.PedDisk.Valid, P.PedDisk.Now;
    core := Disk(len, [], [], 1, true);
    FreshGood(len, env);
    disk, fine := P.PedDisk.NewFresh(len, env);
  }

  /** One call on the object.  It keeps the partitions in order and the lists tile behind
      it, unless a change was refused with its region overwritten; and the program
      ends exactly in the fatal calls. */
  method Perform(disk: P.PedDisk, call: Call, ghost core: Disk, ghost env: Env, ghost whole: bool)
    returns (fine: bool, ok: bool, ghost core': Disk)
    requires disk.Valid() && Good(disk.Now(), core, env) && call.env.scheme == env.scheme && call.env.Valid() && (whole ==> Complete(disk.Now(), core))
    requires Ready(disk.Now(), call.env) && Allowed(Push(disk.Now(), call.env), call.op, call.env)
    modifies disk, disk.primObjects, disk.logObjects
    ensures disk.Valid() && fresh(disk.primObjects - old(disk.primObjects)) && fresh(disk.logObjects - old(disk.logObjects))
    ensures fine <==> !Fatal(Push(old(disk.Now()), call.env), call.op, call.env)
    ensures fine ==> Good(disk.Now(), core', env)
    ensures fine && WholeAfter(Push(old(disk.Now()), call.env), call.op, whole, call.env) ==> Complete(disk.Now(), core')
    ensures fine ==> Ret((disk.Now(), ok)) == Apply(old(disk.Now()), call.op, call.env)
  {
    hide Good, Complete, AddPartition, SetPartitionGeom, DeletePartition, Push, DiskOps.Usable, Fatal, WholeAfter, P.PedDisk.Valid, P.PedDisk.Now;
    core' := CallKeeps(disk.Now(), core, env, call, whole);
    match call.op
    case Add(p, c) => fine, ok := disk.AddPartition(p, c, call.env);
    case SetGeom(ref, c, start, end) => fine, ok := disk.SetPartitionGeom(ref, c, start, end, call.env);
    case Delete(ref) => fine := disk.DeletePartition(ref, call.env); ok := true;
    case Commit => disk.Commit(); fine, ok := true, true;
  }
}
