/** What a report pass of rtcppacketbuilder.cpp does to the entries of the source table. */
module ReportMarks {
  import opened SourceStats
  import opened SourceData

  /** What the packet builder remembers of the packet before. */
  datatype Last = Last(firstPacket: bool, prevBuildTime: Time)

  /** Sources that sent data since the last packet get a report; we do not, and a CSRC does not. */
  predicate Eligible(l: Last, e: Entry) {
    !e.own && !e.csrc && e.stats.nr.sentData && (l.firstPacket || e.stats.timing.lastRtpTime > l.prevBuildTime)
  }

  /** Eligible and not yet covered. */
  predicate Pending(l: Last, e: Entry) {
    Eligible(l, e) && !e.processed
  }

  /** An entry whose report was added. */
  function Reported(e: Entry): Entry {
    e.(processed := true, stats := e.stats.(nr := StartInterval(e.stats.nr)))
  }

  function PendingOf(l: Last, es: seq<Entry>): seq<Entry> {
    if es == [] then []
    else PendingOf(l, es[..|es| - 1]) + if Pending(l, es[|es| - 1]) then [es[|es| - 1]] else []
  }

  function EligibleOf(l: Last, es: seq<Entry>): seq<Entry> {
    if es == [] then []
    else EligibleOf(l, es[..|es| - 1]) + if Eligible(l, es[|es| - 1]) then [es[|es| - 1]] else []
  }

  /** The table once the first `n` pending entries are reported: the others are as they were. */
  function Marked(l: Last, es: seq<Entry>, n: nat): (r: seq<Entry>)
    ensures |r| == |es|
    ensures forall i | 0 <= i < |es| ::
      r[i] == if Pending(l, es[i]) && |PendingOf(l, es[..i])| < n then Reported(es[i]) else es[i]
  {
    seq(|es|, i requires 0 <= i < |es| =>
      if Pending(l, es[i]) && |PendingOf(l, es[..i])| < n then Reported(es[i]) else es[i])
  }

  /** `ClearAllSourceFlags` */
  function Cleared(es: seq<Entry>): (r: seq<Entry>)
    ensures |r| == |es| && forall i | 0 <= i < |es| :: r[i] == es[i].(processed := false)
  {
    seq(|es|, i requires 0 <= i < |es| => es[i].(processed := false))
  }
}
