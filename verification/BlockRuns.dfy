/** What a report block tells of the packets that came: highest number, packets lost, fraction lost and
    jitter against the true indices of a whole run, cut into intervals by the reports made on the way. */
module BlockRuns {
  import opened Bytes
  import opened RtcpPackets
  import opened SourceStats
  import opened SourceData
  import opened ReceiveRuns
  import opened ReportMarks
  import opened ReportPass

  /** The packets that came from one report to the next, one list after the other. */
  function Flat(parts: seq<seq<int>>): seq<int> {
    if parts == [] then [] else Flat(parts[..|parts| - 1]) + parts[|parts| - 1]
  }

  /** The numbering after all of them, a report having been made before each list but the first. */
  function RunParts(n: Numbering, parts: seq<seq<int>>): Numbering {
    if parts == [] then n
    else
      var last := |parts| - 1;
      var m := RunParts(n, parts[..last]);
      RunLater(if last == 0 then m else StartInterval(m), parts[last]).0
  }

  // ---------------------------------------------------------------- intervals change nothing else

  lemma {:induction false} RunAppend(n: Numbering, a: seq<int>, b: seq<int>)
    ensures RunLater(n, a + b).0 == RunLater(RunLater(n, a).0, b).0
    decreases |a|
  {
    hide CountLater, Extend;
    if a == [] {
      assert a + b == b;
    } else {
      assert (a + b)[1..] == a[1..] + b;
      RunAppend(CountLater(n, a[0] % 0x1_0000), a[1..], b);
    }
  }

  lemma {:induction false} OtherInterval(n: Numbering, x: uint32, y: uint32, indices: seq<int>)
    ensures
      RunLater(n.(numNewPackets := x, savedExtSeqNr := y), indices).0
        == RunLater(n, indices).0.(numNewPackets := Add32(x, |indices|), savedExtSeqNr := y)
    decreases |indices|
  {
    hide Extend, CyclesFor, Advances;
    if indices == [] {
      NoneAdded(x);
    } else {
      var m := n.(numNewPackets := x, savedExtSeqNr := y);
      var seqNr := indices[0] % 0x1_0000;
      SameCount(n, x, y, seqNr);
      OtherInterval(CountLater(n, seqNr), Add32(x, 1), y, indices[1..]);
      AddAdd(x, 1, |indices| - 1);
    }
  }

  lemma NoneAdded(x: uint32)
    ensures Add32(x, 0) == x
  {
  }

  lemma SameCount(n: Numbering, x: uint32, y: uint32, seqNr: uint16)
    ensures
      CountLater(n.(numNewPackets := x, savedExtSeqNr := y), seqNr)
        == CountLater(n, seqNr).(numNewPackets := Add32(x, 1), savedExtSeqNr := y)
  {
    hide Add32, Advances;
  }

  /** Reports on the way only set the interval: it starts where the last of them was made. */
  lemma {:induction false} ReportsOnTheWay(n: Numbering, parts: seq<seq<int>>)
    requires parts != []
    ensures
      var last, r := |parts| - 1, RunLater(n, Flat(parts)).0;
      RunParts(n, parts) ==
        if last == 0 then r
        else r.(numNewPackets := Add32(0, |parts[last]|),
                savedExtSeqNr := RunLater(n, Flat(parts[..last])).0.extHighSeqNr)
  {
    hide CountLater, Extend, Add32, RunLater;
    var last := |parts| - 1;
    var init := parts[..last];
    if last == 0 {
      assert init == [] && Flat(parts) == parts[0];
    } else {
      ReportsOnTheWay(n, init);
      var m, r := RunParts(n, init), RunLater(n, Flat(init)).0;
      assert StartInterval(m) == r.(numNewPackets := 0, savedExtSeqNr := r.extHighSeqNr);
      OtherInterval(r, 0, r.extHighSeqNr, parts[last]);
      RunAppend(n, Flat(init), parts[last]);
    }
  }

  // ---------------------------------------------------------------- who gets one

  /** A report pass is about exactly these entries, in the order of the table: sources of packets, not we
      and no contributing source, heard since the last packet and not covered yet. */
  lemma {:induction false} PendingExactly(l: Last, es: seq<Entry>) returns (at: seq<nat>)
    ensures |at| == |PendingOf(l, es)| && (forall k | 0 <= k < |at| :: at[k] < |es| && PendingOf(l, es)[k] == es[at[k]])
    ensures forall j, k | 0 <= j < k < |at| :: at[j] < at[k]
    ensures forall i: nat | i < |es| :: i in at <==>
      && !es[i].own && !es[i].csrc && es[i].stats.nr.sentData && !es[i].processed
      && (l.firstPacket || l.prevBuildTime < es[i].stats.timing.lastRtpTime)
  {
    if es == [] {
      at := [];
    } else {
      var n := |es| - 1;
      at := PendingExactly(l, es[..n]);
      assert forall i | 0 <= i < n :: es[..n][i] == es[i];
      if Pending(l, es[n]) {
        at := at + [n];
      }
    }
  }

  // ---------------------------------------------------------------- one block

  /** The index the interval counts from, and how many packets came in it. */
  function Start(first: int, parts: seq<seq<int>>): int
    requires parts != []
  {
    if |parts| == 1 then first - 1 else Highest(first, Flat(parts[..|parts| - 1]))
  }

  function InInterval(parts: seq<seq<int>>): nat
    requires parts != []
  {
    |parts[|parts| - 1]| + if |parts| == 1 then 1 else 0
  }

  /** The source has sent `first` and then the packets with these indices, reports on it being made on
      the way. */
  ghost predicate HasCome(e: Entry, first: int, parts: seq<seq<int>>) {
    && parts != [] && Orderly(first, Flat(parts))
    && e.stats.nr == RunParts(AcceptFirst(Initial.nr, first % 0x1_0000), parts)
  }

  lemma {:induction false} OrderlyFront(high: int, a: seq<int>, b: seq<int>)
    requires Orderly(high, a + b)
    ensures Orderly(high, a)
    decreases |a|
  {
    if a != [] {
      assert (a + b)[1..] == a[1..] + b;
      OrderlyFront(Max(high, a[0]), a[1..], b);
    }
  }

  /** The numbers of the entry in terms of the true indices. */
  lemma NumbersOf(e: Entry, first: int, parts: seq<seq<int>>) returns (k: int)
    requires HasCome(e, first, parts)
    ensures parts != []
    ensures
      var n, high := e.stats.nr, Highest(first, Flat(parts));
      && k % 0x1_0000 == 0
      && n.extHighSeqNr == (high - k) % 0x1_0000_0000
      && n.savedExtSeqNr == (Start(first, parts) - k) % 0x1_0000_0000
      && n.numNewPackets == InInterval(parts) % 0x1_0000_0000
      && Lost(n) == Sub32(high - first + 1, 1 + |Flat(parts)|)
  {
    hide RunLater, Highest, Orderly, CountLater, Flat;
    var n0, last := AcceptFirst(Initial.nr, first % 0x1_0000), |parts| - 1;
    k := FirstStep(Initial.nr, first);
    ReportsOnTheWay(n0, parts);
    SequenceExtension(n0, k, first, Flat(parts));
    RunCounts(n0, Flat(parts));
    LostOfRun(Initial.nr, first, Flat(parts));
    if last == 0 {
      FlatOne(parts);
    } else {
      FlatMore(parts);
      OrderlyFront(first, Flat(parts[..last]), parts[last]);
      SequenceExtension(n0, k, first, Flat(parts[..last]));
    }
  }

  lemma FlatOne(parts: seq<seq<int>>)
    requires |parts| == 1
    ensures Flat(parts) == parts[0]
  {
    assert Flat(parts[..0]) == [];
  }

  lemma FlatMore(parts: seq<seq<int>>)
    requires parts != []
    ensures Flat(parts) == Flat(parts[..|parts| - 1]) + parts[|parts| - 1]
  {
  }

  lemma SignedOf(x: int)
    requires -0x8000_0000 <= x < 0x8000_0000
    ensures Signed32(x % 0x1_0000_0000) == x
  {
  }

  lemma LowHalf(x: int, k: int)
    requires k % 0x1_0000 == 0
    ensures (x - k) % 0x1_0000_0000 % 0x1_0000 == x % 0x1_0000
  {
    LowBits(x, k);
  }

  /** The block on a source whose packets were orderly, fewer than 2^31 of them and over as many indices:
      the low bits of the highest number are those of the highest index; the loss is the number of missing
      indices less the surplus arrivals; and the fraction is that of the packets the interval lacks, in
      256ths and rounded down, or 0 if it had more than it expected. The jitter is that of the source. */
  lemma BlockTellsRun(b: ReportBlock, e: Entry, first: int, parts: seq<seq<int>>)
    requires HasCome(e, first, parts) && ReportsOn(b, e)
    requires Highest(first, Flat(parts)) - first < 0x7FFF_FFFF && |Flat(parts)| < 0x7FFF_FFFF
    ensures
      var high, got := Highest(first, Flat(parts)), ReceiveRuns.Received(first, Flat(parts));
      && b.ssrc == e.ssrc && b.extHighestSeq % 0x1_0000 == high % 0x1_0000
      && b.packetsLost == |Expected(first, high) - got| - (1 + |Flat(parts)| - |got|)
    ensures
      var expected, received := Highest(first, Flat(parts)) - Start(first, parts), InInterval(parts);
      received > 0 ==>
        if expected < received then b.fractionLost == 0
        else b.fractionLost * expected <= 256 * (expected - received) < (b.fractionLost + 1) * expected
    ensures 0.0 <= e.stats.timing.dJitter < 4294967296.0 ==> b.jitter == e.stats.timing.dJitter.Floor
  {
    hide HasCome, Orderly, Flat, Highest, Expected, ReceiveRuns.Received, Sub32, Lost, FractionLost, Signed32;
    var k := NumbersOf(e, first, parts);
    var n, high := e.stats.nr, Highest(first, Flat(parts));
    HighestBounds(first, Flat(parts));
    StartBounds(first, parts);
    LowHalf(high, k);
    MissingCount(first, Flat(parts));
    LostIsLost(n);
    SubIs(high - first + 1, 1 + |Flat(parts)|);
    SignedOf(high - first + 1 - (1 + |Flat(parts)|));
    var expected, received := high - Start(first, parts), InInterval(parts);
    SubOfRemainders(high - k, Start(first, parts) - k);
    SubIs(high - k, Start(first, parts) - k);
    Small(expected);
    Small(received);
    if received > 0 {
      FractionFits(expected, received);
      FractionIs(expected, received);
    }
  }

  lemma SubIs(a: int, b: int)
    ensures Sub32(a, b) == (a - b) % 0x1_0000_0000
  {
  }

  lemma LostIsLost(n: Numbering)
    ensures Lost(n) == Sub32(Sub32(n.extHighSeqNr, n.baseSeqNr), n.packetsReceived)
  {
  }

  lemma Small(x: nat)
    requires x < 0x1_0000_0000
    ensures x % 0x1_0000_0000 == x
  {
  }

  lemma FractionIs(expected: uint32, received: uint32)
    requires expected < received || expected != 0
    ensures expected < received ==> FractionLost(expected, received) == 0
  {
  }

  lemma StartBounds(first: int, parts: seq<seq<int>>)
    requires parts != []
    ensures first - 1 <= Start(first, parts) <= Highest(first, Flat(parts)) && InInterval(parts) <= |Flat(parts)| + 1
  {
    hide Highest, Flat;
    HighestBounds(first, Flat(parts));
    FlatMore(parts);
    if |parts| > 1 {
      var init := Flat(parts[..|parts| - 1]);
      HighestBounds(first, init);
      HighestGrows(first, init, parts[|parts| - 1]);
    }
  }

  lemma {:induction false} HighestGrows(high: int, a: seq<int>, b: seq<int>)
    ensures Highest(high, a) <= Highest(high, a + b)
    decreases |a|
  {
    if a == [] {
      assert a + b == b;
      HighestBounds(high, b);
    } else {
      assert (a + b)[1..] == a[1..] + b;
      HighestGrows(Max(high, a[0]), a[1..], b);
    }
  }
}
