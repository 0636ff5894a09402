/**
 * The `ProcessManager` object: the whitelist, the in-memory threat history
 * and the history file, with the operations that read processes, flag
 * threats and keep the history.
 */
module Manager {
  import opened Wrappers
  import opened Processes
  import opened ThreatPolicy
  import opened ProcessListing
  import opened HistoryStore

  class ProcessManager {
    const whitelist: seq<string>
    const historyFile: HistoryFile
    /** Every threat seen since start-up, after the entries loaded from the file; never trimmed. */
    var history: seq<Threat>

    /** The file holds a suffix of the in-memory history, and at most HISTORY_CAP entries once written. */
    ghost predicate Valid()
      reads this, historyFile
    {
      var saved := Loaded(historyFile.stored);
      && historyFile.Valid()
      && |saved| <= |history|
      && history[|history| - |saved|..] == saved
    }

    /** Start-up: the built-in whitelist, and the history loaded from the file (empty when it is absent). */
    constructor (file: HistoryFile)
      requires file.Valid()
      ensures Valid()
      ensures whitelist == WHITELIST && historyFile == file
      ensures history == Loaded(file.stored)
      ensures unchanged(file)
    {
      whitelist := WHITELIST;
      historyFile := file;
      history := Loaded(file.stored);
    }

    /**
     * Overwrites the file with the newest HISTORY_CAP entries of the history;
     * memory is left as it is. The invariant holds afterwards whatever the
     * file held before, so a caller may extend `history` first and then save.
     */
    method SaveHistory()
      modifies historyFile
      ensures Valid()
      ensures historyFile.stored == Some(Persisted(history))
      ensures historyFile.writes == old(historyFile.writes) + 1
    {
      historyFile.stored := Some(Persisted(history));
      historyFile.writes := historyFile.writes + 1;
    }

    /** One record per readable entry of the enumeration, in order; entries whose read failed are skipped. */
    method GetAllProcesses(procs: Enumeration) returns (processes: seq<ProcessRecord>)
      ensures processes == Readable(procs)
    {
      processes := [];
      var i := 0;
      while i < |procs|
        invariant 0 <= i <= |procs|
        invariant processes == Readable(procs[..i])
      {
        assert procs[..i + 1][..i] == procs[..i];
        match procs[i] {
          case None =>
          case Some(p) =>
            processes := processes + [ProcessRecord(p.pid, p.name, p.cpuPercent, p.memoryPercent, p.status)];
        }
        i := i + 1;
      }
      assert procs[..i] == procs;
    }

    /**
     * Flags the readable entries that are not whitelisted and whose cpu is
     * strictly above `threshold`; `stamps[i]` is the clock reading taken if
     * entry `i` is flagged. When anything is flagged, the threats are added
     * to the end of the history and the file is rewritten; otherwise neither
     * the history nor the file changes.
     */
    method CheckThreats(procs: Enumeration, stamps: seq<Timestamp>, threshold: real) returns (threats: seq<Threat>)
      requires Valid() && |stamps| == |procs|
      modifies this, historyFile
      ensures Valid()
      ensures threats == ThreatsOf(procs, stamps, whitelist, threshold)
      ensures history == old(history) + threats
      ensures threats == [] ==> historyFile.stored == old(historyFile.stored)
      ensures threats == [] <==> historyFile.writes == old(historyFile.writes)
      ensures threats != [] ==> historyFile.stored == Some(Persisted(history))
      ensures threats != [] ==> historyFile.writes == old(historyFile.writes) + 1
    {
      threats := [];
      var i := 0;
      while i < |procs|
        invariant 0 <= i <= |procs|
        invariant threats == ThreatsOf(procs[..i], stamps[..i], whitelist, threshold)
      {
        assert procs[..i + 1][..i] == procs[..i] && stamps[..i + 1][..i] == stamps[..i];
        match procs[i] {
          case None =>
          case Some(p) =>
            if p.name !in whitelist && p.cpuPercent > threshold {
              threats := threats + [Threat(p.pid, p.name, p.cpuPercent, stamps[i])];
            }
        }
        i := i + 1;
      }
      assert procs[..i] == procs && stamps[..i] == stamps;
      if threats != [] {
        history := history + threats;
        SaveHistory();
      }
    }

    /** The whole in-memory history, of which the file holds a suffix. */
    function GetHistory(): (h: seq<Threat>)
      reads this, historyFile
      requires Valid()
      ensures h == history
      ensures var saved := Loaded(historyFile.stored); |saved| <= |h| && h[|h| - |saved|..] == saved
    {
      history
    }
  }

  /**
   * A check followed by a restart on the same file: when the check flagged
   * anything, the new manager starts from the newest HISTORY_CAP entries of
   * the old manager's history; otherwise it starts from the file as it was.
   */
  method CheckThenRestart(m: ProcessManager, procs: Enumeration, stamps: seq<Timestamp>, threshold: real)
    returns (threats: seq<Threat>, restarted: ProcessManager)
    requires m.Valid() && |stamps| == |procs|
    modifies m, m.historyFile
    ensures restarted.historyFile == m.historyFile && restarted.Valid()
    ensures m.history == old(m.history) + threats
    ensures threats != [] ==> restarted.history == Persisted(m.history)
    ensures threats != [] ==> |restarted.history| <= HISTORY_CAP
    ensures threats == [] ==> restarted.history == Loaded(old(m.historyFile.stored))
  {
    threats := m.CheckThreats(procs, stamps, threshold);
    restarted := new ProcessManager(m.historyFile);
  }
}
