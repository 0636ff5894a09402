/**
 * The records the process manager reads from the operating system and the
 * records it hands back, plus a small selection helper shared by the two
 * filters over an enumeration (the threat check and the process listing).
 */
module Processes {
  import opened Wrappers

  /** A "%Y-%m-%d %H:%M:%S" clock reading, opaque to the model. */
  type Timestamp = string

  /** The attributes psutil reports for one process. */
  datatype ProcessInfo = ProcessInfo(
    pid: int,
    name: string,
    cpuPercent: real,
    memoryPercent: real,
    status: string)

  /**
   * One pass of the OS enumeration in the order the OS yields it.
   * `None` marks an entry whose read raised NoSuchProcess or AccessDenied.
   */
  type Enumeration = seq<Option<ProcessInfo>>

  /** The `{pid, name, cpu, memory, status}` record the process listing returns. */
  datatype ProcessRecord = ProcessRecord(pid: int, name: string, cpu: real, memory: real, status: string)

  /** The `{pid, name, cpu, timestamp}` record of a flagged process, as kept in the history. */
  datatype Threat = Threat(pid: int, name: string, cpu: real, timestamp: Timestamp)

  /** The positions of `marks` that hold `true`, in increasing order. */
  function Picks(marks: seq<bool>): (idx: seq<nat>)
    ensures |idx| <= |marks|
    ensures forall k :: 0 <= k < |idx| ==> idx[k] < |marks| && marks[idx[k]]
    ensures forall k, l :: 0 <= k < l < |idx| ==> idx[k] < idx[l]
    decreases |marks|
  {
    if marks == [] then []
    else
      var n := |marks| - 1;
      Picks(marks[..n]) + (if marks[n] then [n] else [])
  }

  /** Every marked position is picked: together with the ensures of Picks, `i in Picks(marks) <==> marks[i]`. */
  lemma {:induction false} PicksComplete(marks: seq<bool>, i: nat)
    requires i < |marks| && marks[i]
    ensures i in Picks(marks)
    decreases |marks|
  {
    var n := |marks| - 1;
    if i < n {
      PicksComplete(marks[..n], i);
    }
  }
}
