/** What `get_all_processes` returns for one pass over the OS enumeration. */
module ProcessListing {
  import opened Wrappers
  import opened Processes

  /** The record built from one readable entry: every field copied unchanged. */
  function RecordOf(p: ProcessInfo): ProcessRecord
  {
    ProcessRecord(p.pid, p.name, p.cpuPercent, p.memoryPercent, p.status)
  }

  /** Which entries of the enumeration could be read. */
  function ReadMarks(procs: Enumeration): (m: seq<bool>)
    ensures |m| == |procs|
    ensures forall i :: 0 <= i < |procs| ==> (m[i] <==> procs[i].Some?)
  {
    seq(|procs|, i requires 0 <= i < |procs| => procs[i].Some?)
  }

  /** The records of the readable entries; failed reads are dropped and the pass goes on. */
  function Readable(procs: Enumeration): (r: seq<ProcessRecord>)
    ensures |r| <= |procs|
    ensures (forall i :: 0 <= i < |procs| ==> procs[i].Some?) ==> |r| == |procs|
    ensures (forall i :: 0 <= i < |procs| ==> procs[i].None?) ==> r == []
    decreases |procs|
  {
    if procs == [] then []
    else
      var n := |procs| - 1;
      Readable(procs[..n]) + (if procs[n].Some? then [RecordOf(procs[n].value)] else [])
  }

  /** The listing has one record per readable entry, in enumeration order. */
  lemma {:induction false} ReadableInOrder(procs: Enumeration)
    ensures var r, idx := Readable(procs), Picks(ReadMarks(procs));
      && |r| == |idx|
      && forall k :: 0 <= k < |idx| ==> r[k] == RecordOf(procs[idx[k]].value)
    decreases |procs|
  {
    if procs != [] {
      var n := |procs| - 1;
      var marks, marks' := ReadMarks(procs), ReadMarks(procs[..n]);
      assert marks[..n] == marks';
      ReadableInOrder(procs[..n]);
      var r', idx' := Readable(procs[..n]), Picks(marks');
      var r, idx := Readable(procs), Picks(marks);
      assert idx == idx' + (if marks[n] then [n] else []);
      forall k | 0 <= k < |idx'|
        ensures r[k] == RecordOf(procs[idx[k]].value)
      {
        assert r[k] == r'[k] && idx[k] == idx'[k];
        assert procs[..n][idx'[k]] == procs[idx'[k]];
      }
    }
  }

  /** Exactly the readable entries are listed, each with its five fields unchanged, in enumeration order. */
  lemma ReadableExactly(procs: Enumeration)
    ensures var r, idx := Readable(procs), Picks(ReadMarks(procs));
      && |r| == |idx|
      && (forall k :: 0 <= k < |idx| ==> r[k] == RecordOf(procs[idx[k]].value))
      && (forall i :: 0 <= i < |procs| ==> (i in idx <==> procs[i].Some?))
  {
    var marks := ReadMarks(procs);
    forall i | 0 <= i < |procs| && marks[i]
      ensures i in Picks(marks)
    {
      PicksComplete(marks, i);
    }
    ReadableInOrder(procs);
  }
}
