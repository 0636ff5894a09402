/**
 * The history file "process_history.json": what a save writes into it,
 * what a load reads back, and the file itself as a mutable object.
 */
module HistoryStore {
  import opened Wrappers
  import opened Processes

  /** How many of the newest history entries a save keeps. */
  const HISTORY_CAP: nat := 100

  /** The slice `history[-100:]` that a save writes: the newest min(100, |h|) entries, in order. */
  function Persisted(h: seq<Threat>): (r: seq<Threat>)
    ensures |r| == if |h| <= HISTORY_CAP then |h| else HISTORY_CAP
    ensures r == h[|h| - |r|..]
  {
    if |h| <= HISTORY_CAP then h else h[|h| - HISTORY_CAP..]
  }

  /** What a load returns: the stored list, or the empty history when the file does not exist. */
  function Loaded(stored: Option<seq<Threat>>): (h: seq<Threat>)
    ensures stored.None? ==> h == []
    ensures stored.Some? ==> h == stored.value
  {
    match stored
    case None => []
    case Some(saved) => saved
  }

  /**
   * A load returns what the last save wrote, and trimming commutes with a
   * restart: saving after (load, append e) writes the same file as saving
   * after appending e to the untrimmed history would have.
   */
  lemma ReloadThenPersist(h: seq<Threat>, e: seq<Threat>)
    ensures Loaded(Some(Persisted(h))) == Persisted(h)
    ensures Persisted(Loaded(Some(Persisted(h))) + e) == Persisted(h + e)
  {
  }

  /** When one batch alone reaches the cap, the file holds exactly the newest 100 events of that batch. */
  lemma LargeBatchFillsFile(h: seq<Threat>, e: seq<Threat>)
    requires |e| >= HISTORY_CAP
    ensures Persisted(h + e) == e[|e| - HISTORY_CAP..]
  {
  }

  /**
   * The file on disk. `stored` is `None` while the file does not exist;
   * `writes` counts the saves, so that a caller can tell that none happened.
   */
  class HistoryFile {
    var stored: Option<seq<Threat>>
    ghost var writes: nat

    /** Only the process manager writes the file, and each write holds at most HISTORY_CAP entries. */
    ghost predicate Valid()
      reads this
    {
      writes > 0 ==> stored.Some? && |stored.value| <= HISTORY_CAP
    }

    /** The file as found at start-up: absent, or holding whatever list it holds. */
    constructor (initial: Option<seq<Threat>>)
      ensures Valid()
      ensures stored == initial && writes == 0
    {
      stored := initial;
      writes := 0;
    }
  }
}
