/** Task IDs: PSC_getTID of lib/pscommon/pscommon.c. */
module Tasks {

  type TaskId = int

  /** The node in the upper 32 bits, the process in the lower ones. */
  function TaskOf(node: nat, pid: nat): TaskId {
    node * 0x1_0000_0000 + pid
  }
}
