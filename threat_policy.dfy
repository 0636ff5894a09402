/**
 * The threat classification of `check_threats`: which processes of one
 * enumeration are reported, and what is reported about them.
 */
module ThreatPolicy {
  import opened Wrappers
  import opened Processes

  /** Process names that are never reported, whatever their cpu usage. */
  const WHITELIST: seq<string> := ["System Idle Process", "System", "explorer.exe", "svchost.exe"]

  /** The threshold `check_threats` uses when called without one (by the monitor loop and by GET /api/threats). */
  const DEFAULT_THRESHOLD: real := 50.0

  /** The test applied to one readable process: not whitelisted, and cpu strictly above the threshold. */
  function IsThreat(whitelist: seq<string>, p: ProcessInfo, threshold: real): (r: bool)
    ensures p.name in whitelist ==> !r
    ensures p.cpuPercent <= threshold ==> !r
    ensures p.name !in whitelist && p.cpuPercent > threshold ==> r
  {
    p.name !in whitelist && p.cpuPercent > threshold
  }

  /** The event recorded for a flagged process, stamped with the clock reading taken for it. */
  function ThreatFrom(p: ProcessInfo, stamp: Timestamp): Threat
  {
    Threat(p.pid, p.name, p.cpuPercent, stamp)
  }

  /** Which entries of the enumeration are readable threats. */
  function ThreatMarks(procs: Enumeration, whitelist: seq<string>, threshold: real): (m: seq<bool>)
    ensures |m| == |procs|
    ensures forall i :: 0 <= i < |procs| ==> (m[i] <==> procs[i].Some? && IsThreat(whitelist, procs[i].value, threshold))
  {
    seq(|procs|, i requires 0 <= i < |procs| => procs[i].Some? && IsThreat(whitelist, procs[i].value, threshold))
  }

  /**
   * The threats one pass over `procs` reports; `stamps[i]` is the clock
   * reading taken if entry `i` is flagged. Defined on the last entry so
   * that it follows the loop that appends to `threats`.
   */
  function ThreatsOf(procs: Enumeration, stamps: seq<Timestamp>, whitelist: seq<string>, threshold: real): (r: seq<Threat>)
    requires |stamps| == |procs|
    ensures |r| <= |procs|
    ensures forall t :: t in r ==> t.name !in whitelist && t.cpu > threshold
    decreases |procs|
  {
    if procs == [] then []
    else
      var n := |procs| - 1;
      var last := if procs[n].Some? && IsThreat(whitelist, procs[n].value, threshold)
                  then [ThreatFrom(procs[n].value, stamps[n])] else [];
      ThreatsOf(procs[..n], stamps[..n], whitelist, threshold) + last
  }

  /** The report lists one threat per selected entry, in enumeration order. */
  lemma {:induction false} ThreatsInOrder(procs: Enumeration, stamps: seq<Timestamp>, whitelist: seq<string>, threshold: real)
    requires |stamps| == |procs|
    ensures var r, idx := ThreatsOf(procs, stamps, whitelist, threshold), Picks(ThreatMarks(procs, whitelist, threshold));
      && |r| == |idx|
      && forall k :: 0 <= k < |idx| ==> r[k] == ThreatFrom(procs[idx[k]].value, stamps[idx[k]])
    decreases |procs|
  {
    if procs != [] {
      var n := |procs| - 1;
      var marks := ThreatMarks(procs, whitelist, threshold);
      var marks' := ThreatMarks(procs[..n], whitelist, threshold);
      assert marks[..n] == marks';
      ThreatsInOrder(procs[..n], stamps[..n], whitelist, threshold);
      var r' := ThreatsOf(procs[..n], stamps[..n], whitelist, threshold);
      var idx' := Picks(marks');
      var r := ThreatsOf(procs, stamps, whitelist, threshold);
      var idx := Picks(marks);
      assert idx == idx' + (if marks[n] then [n] else []);
      assert r == r' + (if marks[n] then [ThreatFrom(procs[n].value, stamps[n])] else []);
      forall k | 0 <= k < |idx'|
        ensures r[k] == ThreatFrom(procs[idx[k]].value, stamps[idx[k]])
      {
        assert r[k] == r'[k] && idx[k] == idx'[k];
        assert procs[..n][idx'[k]] == procs[idx'[k]];
        assert stamps[..n][idx'[k]] == stamps[idx'[k]];
      }
    }
  }

  /**
   * The report is exactly the readable, non-whitelisted entries whose cpu
   * exceeds the threshold, one threat per such entry, in enumeration order.
   */
  lemma ThreatsExactly(procs: Enumeration, stamps: seq<Timestamp>, whitelist: seq<string>, threshold: real)
    requires |stamps| == |procs|
    ensures var r, idx := ThreatsOf(procs, stamps, whitelist, threshold), Picks(ThreatMarks(procs, whitelist, threshold));
      && |r| == |idx|
      && (forall k :: 0 <= k < |idx| ==> r[k] == ThreatFrom(procs[idx[k]].value, stamps[idx[k]]))
      && (forall i :: 0 <= i < |procs| ==> (i in idx <==> procs[i].Some? && IsThreat(whitelist, procs[i].value, threshold)))
  {
    var marks := ThreatMarks(procs, whitelist, threshold);
    forall i | 0 <= i < |procs| && marks[i]
      ensures i in Picks(marks)
    {
      PicksComplete(marks, i);
    }
    ThreatsInOrder(procs, stamps, whitelist, threshold);
  }

  /** An entry that is whitelisted or whose cpu does not exceed the threshold (equality included) is never reported. */
  lemma ExemptNeverReported(procs: Enumeration, stamps: seq<Timestamp>, whitelist: seq<string>, threshold: real, i: nat)
    requires |stamps| == |procs| && i < |procs| && procs[i].Some?
    requires procs[i].value.name in whitelist || procs[i].value.cpuPercent <= threshold
    ensures i !in Picks(ThreatMarks(procs, whitelist, threshold))
  {
  }

  /**
   * A worked example: with the built-in whitelist and the
   * default threshold, a whitelisted hog, a process at exactly the threshold,
   * an unreadable entry and an idle process are skipped; only "bad.exe" is reported.
   */
  lemma MixedPassScenario(s: seq<Timestamp>)
    requires |s| == 5
    ensures ThreatsOf([Some(ProcessInfo(1, "System", 99.0, 1.0, "running")),
                       Some(ProcessInfo(2, "bad.exe", 75.0, 2.0, "running")),
                       None,
                       Some(ProcessInfo(4, "edge.exe", 50.0, 3.0, "running")),
                       Some(ProcessInfo(5, "ok.exe", 10.0, 4.0, "sleeping"))],
                      s, WHITELIST, DEFAULT_THRESHOLD)
            == [Threat(2, "bad.exe", 75.0, s[1])]
  {
    var procs := [Some(ProcessInfo(1, "System", 99.0, 1.0, "running")),
                  Some(ProcessInfo(2, "bad.exe", 75.0, 2.0, "running")),
                  None,
                  Some(ProcessInfo(4, "edge.exe", 50.0, 3.0, "running")),
                  Some(ProcessInfo(5, "ok.exe", 10.0, 4.0, "sleeping"))];
    assert "System" in WHITELIST;
    assert "bad.exe" !in WHITELIST;
    assert procs[..2][..1] == procs[..1] && s[..2][..1] == s[..1];
    assert procs[..3][..2] == procs[..2] && s[..3][..2] == s[..2];
    assert procs[..4][..3] == procs[..3] && s[..4][..3] == s[..3];
    assert procs[..5] == procs && s[..5] == s;
    assert ThreatsOf(procs[..1], s[..1], WHITELIST, DEFAULT_THRESHOLD) == [];
    assert ThreatsOf(procs[..2], s[..2], WHITELIST, DEFAULT_THRESHOLD) == [Threat(2, "bad.exe", 75.0, s[1])];
    assert ThreatsOf(procs[..3], s[..3], WHITELIST, DEFAULT_THRESHOLD) == [Threat(2, "bad.exe", 75.0, s[1])];
    assert ThreatsOf(procs[..4], s[..4], WHITELIST, DEFAULT_THRESHOLD) == [Threat(2, "bad.exe", 75.0, s[1])];
  }
}
