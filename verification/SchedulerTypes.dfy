/** The values the scheduler exchanges with daemons, with the widths their messages give them. */
module SchedulerTypes {

  const TWO_32: int := 0x1_0000_0000
  const TWO_64: int := 0x1_0000_0000_0000_0000

  type uint32 = x: int | 0 <= x < TWO_32
  type uint64 = x: int | 0 <= x < TWO_64

  /** What a `size_t` holds after an addition or subtraction whose exact result is `x`. */
  function Wrap64(x: int): (r: uint64)
    ensures 0 <= x < TWO_64 ==> r == x
    ensures -TWO_64 <= x < 0 ==> r == x + TWO_64
    ensures TWO_64 <= x < 2 * TWO_64 ==> r == x - TWO_64
  {
    x % TWO_64
  }

  datatype Priority = Unknown | User | Dedicated

  datatype ServantInfo = ServantInfo(
    version: uint32,
    observed: string,
    reported: string,
    cores: uint32,
    load: uint32,
    totalMemory: uint64,
    availMemory: uint64,
    concurrency: uint32,
    priority: Priority,
    envs: seq<string>)

  datatype TaskInfo = TaskInfo(requesterIp: string, minVersion: uint32, env: string)

  datatype RunningTask = RunningTask(servantTaskId: nat, grantId: nat, location: string, digest: string)

  function GrantIds(tasks: seq<RunningTask>): (ids: seq<nat>)
    ensures |ids| == |tasks|
    ensures forall i :: 0 <= i < |tasks| ==> ids[i] == tasks[i].grantId
  {
    seq(|tasks|, i requires 0 <= i < |tasks| => tasks[i].grantId)
  }
}
