/** What the receive statistics of a source mean over whole runs of packets: sequence extension
    (appendix A.1 of RFC 3550), loss accounting (appendix A.3), probation and timestamp distances. */
module ReceiveRuns {
  import opened Bytes
  import opened SourceStats

  // ---------------------------------------------------------------- sequence extension

  /** `high` is the largest true packet index seen; stored numbers are true indices shifted by
      the fixed multiple `k` of 65536, modulo 2^32. */
  ghost predicate Tracks(n: Numbering, k: int, high: int) {
    && n.sentData && k % 0x1_0000 == 0
    && n.extHighSeqNr == (high - k) % 0x1_0000_0000
    && n.numCycles == n.extHighSeqNr - n.extHighSeqNr % 0x1_0000
  }

  /** True indices the extension rule is meant for, relative to the highest so far. */
  predicate InWindow(high: int, index: int) {
    high - 0x8000 <= index < high + 0x8000
  }

  /** A late packet from the 65536-cycle before the one of the highest index. */
  predicate FromBeforeWrap(high: int, index: int) {
    index < high && index / 0x1_0000 < high / 0x1_0000
  }

  function Max(a: int, b: int): int {
    if a < b then b else a
  }

  lemma LowBits(x: int, k: int)
    requires k % 0x1_0000 == 0
    ensures (x - k) % 0x1_0000_0000 % 0x1_0000 == x % 0x1_0000
  {
    var q := k / 0x1_0000;
    assert k == q * 0x1_0000;
    var c := (x - k) / 0x1_0000_0000;
    assert (x - k) % 0x1_0000_0000 == x - (q + c * 0x1_0000) * 0x1_0000;
  }

  /** The two 16-bit halves of a 32-bit number. */
  lemma Halves(x: int, r: uint16)
    ensures (x * 0x1_0000 + r) % 0x1_0000_0000 == x % 0x1_0000 * 0x1_0000 + r
  {
    var q := x / 0x1_0000;
    assert x * 0x1_0000 + r == q * 0x1_0000_0000 + (x % 0x1_0000 * 0x1_0000 + r);
  }

  lemma NextHalf(x: int)
    ensures Add32(x % 0x1_0000 * 0x1_0000, 0x1_0000) == (x + 1) % 0x1_0000 * 0x1_0000
  {
    Halves(x % 0x1_0000 + 1, 0);
  }

  lemma SumOfHalves(high: uint16, low: uint16)
    ensures Add32(high * 0x1_0000, low) == high * 0x1_0000 + low && (high * 0x1_0000 + low) % 0x1_0000 == low
  {
  }

  /** The high and low halves of a shifted index, counted from the cycle of another one. */
  lemma SameCycle(high: int, index: int, k: int)
    requires k % 0x1_0000 == 0
    requires high / 0x1_0000 <= index / 0x1_0000 <= high / 0x1_0000 + 1
    ensures
      var h, i := (high - k) % 0x1_0000_0000, (index - k) % 0x1_0000_0000;
      var cycles := h - h % 0x1_0000;
      var chosen := if index / 0x1_0000 == high / 0x1_0000 then cycles else Add32(cycles, 0x1_0000);
      chosen == i - i % 0x1_0000 && Add32(chosen, index % 0x1_0000) == i
  {
    hide Add32;
    var x, y := high / 0x1_0000 - k / 0x1_0000, index / 0x1_0000 - k / 0x1_0000;
    assert high - k == x * 0x1_0000 + high % 0x1_0000 && index - k == y * 0x1_0000 + index % 0x1_0000;
    Halves(x, high % 0x1_0000);
    Halves(y, index % 0x1_0000);
    SumOfHalves(x % 0x1_0000, high % 0x1_0000);
    SumOfHalves(y % 0x1_0000, index % 0x1_0000);
    NextHalf(x);
    assert y == x || y == x + 1;
  }

  /** One packet: inside the window the number assigned is right if and only if the packet is not a
      late one from before the wrap; such a packet is taken for one a whole cycle ahead. */
  lemma ExtendStep(n: Numbering, k: int, high: int, index: int)
    requires Tracks(n, k, high) && InWindow(high, index)
    ensures Extend(n, index % 0x1_0000) == (index - k) % 0x1_0000_0000 <==> !FromBeforeWrap(high, index)
    ensures
      var taken := if FromBeforeWrap(high, index) then index + 0x1_0000 else index;
      && Extend(n, index % 0x1_0000) == (taken - k) % 0x1_0000_0000
      && Tracks(CountLater(n, index % 0x1_0000), k, Max(high, taken))
  {
    hide Add32, Sub16, Advances;
    var taken := if FromBeforeWrap(high, index) then index + 0x1_0000 else index;
    assert taken % 0x1_0000 == index % 0x1_0000;
    LowBits(high, k);
    CycleChosen(high, taken, n.extHighSeqNr);
    SameCycle(high, taken, k);
    NotACycleApart(index - k);
  }

  lemma NotACycleApart(x: int)
    ensures (x + 0x1_0000) % 0x1_0000_0000 != x % 0x1_0000_0000
  {
  }

  /** Comparing 16-bit distances finds the cycle of every index that is not from before the wrap. */
  lemma CycleChosen(high: int, taken: int, stored: uint32)
    requires stored % 0x1_0000 == high % 0x1_0000
    requires high - 0x8000 <= taken < high + 0x1_0000 && !FromBeforeWrap(high, taken)
    requires taken < high + 0x8000 || taken / 0x1_0000 == high / 0x1_0000
    ensures
      var s, m := taken % 0x1_0000, high % 0x1_0000;
      && (taken / 0x1_0000 == high / 0x1_0000 || taken / 0x1_0000 == high / 0x1_0000 + 1)
      && (Advances(stored, s) <==> taken >= high)
      && (s < m && Advances(stored, s) <==> taken / 0x1_0000 == high / 0x1_0000 + 1)
  {
    var s, m := taken % 0x1_0000, high % 0x1_0000;
    var d := taken / 0x1_0000 - high / 0x1_0000;
    assert taken - high == s - m + d * 0x1_0000;
    assert s < m ==> Sub16(s, m) == s - m + 0x1_0000 && Sub16(m, s) == m - s;
  }

  /** The first accepted packet fixes the shift. */
  lemma FirstStep(n: Numbering, index: int) returns (k: int)
    requires n.numCycles == 0
    ensures Tracks(AcceptFirst(n, index % 0x1_0000), k, index)
    ensures AcceptFirst(n, index % 0x1_0000).baseSeqNr == (index - 1 - k) % 0x1_0000_0000
    ensures k == (index - 1) / 0x1_0000 * 0x1_0000 || k == (index - 1) / 0x1_0000 * 0x1_0000 + 0x1_0000
  {
    k := index - (if index % 0x1_0000 == 0 then 0x1_0000 else index % 0x1_0000);
  }

  /** The state and the assigned numbers after a list of packets, given by their true indices. */
  function RunLater(n: Numbering, indices: seq<int>): (Numbering, seq<uint32>)
    decreases |indices|
  {
    if indices == [] then (n, [])
    else
      var seqNr := indices[0] % 0x1_0000;
      var rest := RunLater(CountLater(n, seqNr), indices[1..]);
      (rest.0, [Extend(n, seqNr)] + rest.1)
  }

  function Highest(high: int, indices: seq<int>): int
    decreases |indices|
  {
    if indices == [] then high else Highest(Max(high, indices[0]), indices[1..])
  }

  /** Every packet is ahead of the highest by less than 32768, or late by at most 32768 within the
      same cycle of 65536. */
  predicate Orderly(high: int, indices: seq<int>)
    decreases |indices|
  {
    indices != [] ==>
      && InWindow(high, indices[0]) && !FromBeforeWrap(high, indices[0])
      && Orderly(Max(high, indices[0]), indices[1..])
  }

  /** Over any orderly run every number assigned is the true index up to the fixed shift, and
      `extHighSeqNr` is the running maximum. */
  lemma {:induction false} SequenceExtension(n: Numbering, k: int, high: int, indices: seq<int>)
    requires Tracks(n, k, high) && Orderly(high, indices)
    ensures |RunLater(n, indices).1| == |indices|
    ensures forall i | 0 <= i < |indices| :: RunLater(n, indices).1[i] == (indices[i] - k) % 0x1_0000_0000
    ensures Tracks(RunLater(n, indices).0, k, Highest(high, indices))
    decreases |indices|
  {
    if indices != [] {
      ExtendStep(n, k, high, indices[0]);
      SequenceExtension(CountLater(n, indices[0] % 0x1_0000), k, Max(high, indices[0]), indices[1..]);
    }
  }

  /** The case the rule gets wrong: after index 65537, the late packet 65535 is taken for 131071. */
  lemma LatePacketFromBeforeWrap(n: Numbering)
    requires Tracks(n, 0, 65537)
    ensures InWindow(65537, 65535) && Extend(n, 65535) == 131071
    ensures CountLater(n, 65535).extHighSeqNr == 131071
  {
    ExtendStep(n, 0, 65537, 65535);
  }

  // ---------------------------------------------------------------- loss

  function Received(first: int, indices: seq<int>): set<int> {
    set i | i in [first] + indices && i >= first
  }

  /** The indices from `first` to `high`. */
  function Expected(first: int, high: int): (s: set<int>)
    ensures forall i :: i in s <==> first <= i <= high
    ensures first - 1 <= high ==> |s| == high - first + 1
    decreases high - first
  {
    if high < first then {} else Expected(first, high - 1) + {high}
  }

  function IntervalExpected(n: Numbering): uint32 {
    Sub32(n.extHighSeqNr, n.savedExtSeqNr)
  }

  /** `packetslost` of a report block, before it is cut to 24 bits. */
  function Lost(n: Numbering): uint32 {
    Sub32(Sub32(n.extHighSeqNr, n.baseSeqNr), n.packetsReceived)
  }

  lemma {:induction false} RunCounts(n: Numbering, indices: seq<int>)
    ensures
      var m := RunLater(n, indices).0;
      && m.packetsReceived == Add32(n.packetsReceived, |indices|)
      && m.numNewPackets == Add32(n.numNewPackets, |indices|)
      && m.baseSeqNr == n.baseSeqNr && m.savedExtSeqNr == n.savedExtSeqNr
    decreases |indices|
  {
    if indices != [] {
      AddAdd(n.packetsReceived, 1, |indices| - 1);
      AddAdd(n.numNewPackets, 1, |indices| - 1);
      RunCounts(CountLater(n, indices[0] % 0x1_0000), indices[1..]);
    }
  }

  lemma {:induction false} HighestBounds(high: int, indices: seq<int>)
    ensures high <= Highest(high, indices)
    ensures forall i | i in indices :: i <= Highest(high, indices)
    decreases |indices|
  {
    if indices != [] {
      assert forall i | i in indices :: i == indices[0] || i in indices[1..];
      HighestBounds(Max(high, indices[0]), indices[1..]);
    }
  }

  lemma LossArithmetic(high: int, first: int, k: int, count: nat)
    ensures Sub32(Sub32((high - k) % 0x1_0000_0000, (first - 1 - k) % 0x1_0000_0000), Add32(0, count))
         == Sub32(high - first + 1, count)
  {
    SubOfRemainders(high - k, first - 1 - k);
    SubOfRemainders(high - first + 1, count);
  }

  lemma LostOfRun(n0: Numbering, first: int, indices: seq<int>)
    requires n0.numCycles == 0 && n0.packetsReceived == 0 && Orderly(first, indices)
    ensures
      var n := RunLater(AcceptFirst(n0, first % 0x1_0000), indices).0;
      Lost(n) == Sub32(Highest(first, indices) - first + 1, 1 + |indices|)
  {
    hide Add32, Sub32;
    var n1 := AcceptFirst(n0, first % 0x1_0000);
    var k := FirstStep(n0, first);
    SequenceExtension(n1, k, first, indices);
    RunCounts(n1, indices);
    AddAdd(0, 1, |indices|);
    LossArithmetic(Highest(first, indices), first, k, 1 + |indices|);
  }

  /** Conservation of packets. For every orderly run starting at index `first`, the loss reported is
      the number of indices that never came, minus the arrivals that were duplicates or from before
      the base, modulo 2^32. */
  lemma LossIsConserved(n0: Numbering, first: int, indices: seq<int>)
    requires n0.numCycles == 0 && n0.packetsReceived == 0 && Orderly(first, indices)
    ensures
      var n := RunLater(AcceptFirst(n0, first % 0x1_0000), indices).0;
      var got := Received(first, indices);
      var missing := |Expected(first, Highest(first, indices)) - got|;
      var surplus := 1 + |indices| - |got|;
      Lost(n) == Sub32(missing, surplus)
  {
    hide Sub32, Lost, RunLater, AcceptFirst, Highest, Received, Expected;
    LostOfRun(n0, first, indices);
    MissingCount(first, indices);
    SameDifference(Highest(first, indices) - first + 1, 1 + |indices|, |Received(first, indices)|);
  }

  lemma SmallDifference(a: nat)
    requires a < 0x1_0000_0000
    ensures Sub32(a, 0) == a
  {
  }

  lemma SameDifference(a: int, b: int, c: int)
    ensures Sub32(a, b) == Sub32(a - c, b - c)
  {
  }

  lemma MissingCount(first: int, indices: seq<int>)
    ensures
      var high := Highest(first, indices);
      |Expected(first, high) - Received(first, indices)| == high - first + 1 - |Received(first, indices)|
  {
    HighestBounds(first, indices);
    var got, all := Received(first, indices), Expected(first, Highest(first, indices));
    assert got <= all;
    assert all == got + (all - got);
  }

  predicate Distinct(indices: seq<int>) {
    forall i, j | 0 <= i < j < |indices| :: indices[i] != indices[j]
  }

  lemma {:induction false} DistinctSize(indices: seq<int>)
    requires Distinct(indices)
    ensures |set i | i in indices| == |indices|
  {
    if indices == [] {
      assert (set i | i in indices) == {};
    } else {
      DistinctSize(indices[1..]);
      assert (set i | i in indices) == {indices[0]} + set i | i in indices[1..];
    }
  }

  lemma AllReceived(first: int, indices: seq<int>)
    requires Distinct([first] + indices) && forall i | i in indices :: i >= first
    ensures |Received(first, indices)| == 1 + |indices|
  {
    DistinctSize([first] + indices);
    assert Received(first, indices) == set i | i in [first] + indices;
  }

  /** For distinct indices at or above the first one, the loss is exactly the number of missing
      indices, and is not negative. */
  lemma LossIsMissing(n0: Numbering, first: int, indices: seq<int>)
    requires n0.numCycles == 0 && n0.packetsReceived == 0 && Orderly(first, indices)
    requires Distinct([first] + indices) && forall i | i in indices :: i >= first
    requires Highest(first, indices) - first < 0x1_0000_0000
    ensures
      var n := RunLater(AcceptFirst(n0, first % 0x1_0000), indices).0;
      Lost(n) == |Expected(first, Highest(first, indices)) - Received(first, indices)|
  {
    hide Sub32, Lost, RunLater, AcceptFirst, Highest, Expected, Received, Distinct;
    LossIsConserved(n0, first, indices);
    AllReceived(first, indices);
    MissingCount(first, indices);
    SmallDifference(|Expected(first, Highest(first, indices)) - Received(first, indices)|);
  }

  // ---------------------------------------------------------------- intervals

  datatype Event = Came(seqNr: uint16) | NewInterval

  /** What one interval reports: packets expected and packets received. */
  datatype Interval = Interval(expected: uint32, received: uint32)

  function RunEvents(n: Numbering, events: seq<Event>): (Numbering, seq<Interval>)
    decreases |events|
  {
    if events == [] then (n, [])
    else
      match events[0]
      case Came(seqNr) => RunEvents(CountLater(n, seqNr), events[1..])
      case NewInterval =>
        var rest := RunEvents(StartInterval(n), events[1..]);
        (rest.0, [Interval(IntervalExpected(n), n.numNewPackets)] + rest.1)
  }

  function TotalExpected(log: seq<Interval>): int {
    if log == [] then 0 else log[0].expected + TotalExpected(log[1..])
  }

  function TotalReceived(log: seq<Interval>): int {
    if log == [] then 0 else log[0].received + TotalReceived(log[1..])
  }

  /** Wherever intervals are started, what the closed intervals and the open one report adds up to
      what the whole run reports. */
  lemma {:induction false} IntervalsAddUp(n: Numbering, events: seq<Event>)
    ensures
      var r := RunEvents(n, events);
      && Add32(TotalExpected(r.1), IntervalExpected(r.0)) == Sub32(r.0.extHighSeqNr, n.savedExtSeqNr)
      && Add32(TotalReceived(r.1), r.0.numNewPackets)
         == Add32(n.numNewPackets, Sub32(r.0.packetsReceived, n.packetsReceived))
      && r.0.baseSeqNr == n.baseSeqNr
    decreases |events|
  {
    hide Add32, Sub32, Extend, CyclesFor, Advances;
    var r := RunEvents(n, events);
    if events == [] {
      NothingAdded(n.extHighSeqNr, n.savedExtSeqNr, n.numNewPackets, n.packetsReceived);
    } else {
      match events[0]
      case Came(seqNr) =>
        IntervalsAddUp(CountLater(n, seqNr), events[1..]);
        OneMore(n.numNewPackets, r.0.packetsReceived, n.packetsReceived);
      case NewInterval =>
        IntervalsAddUp(StartInterval(n), events[1..]);
        var rest := RunEvents(StartInterval(n), events[1..]).1;
        AddTelescope(TotalExpected(rest), IntervalExpected(r.0), r.0.extHighSeqNr, n.extHighSeqNr, n.savedExtSeqNr);
        AddShift(TotalReceived(rest), r.0.numNewPackets, n.numNewPackets,
          Sub32(r.0.packetsReceived, n.packetsReceived));
    }
  }

  lemma NothingAdded(x: int, s: int, nn: uint32, r: int)
    ensures Add32(0, Sub32(x, s)) == Sub32(x, s)
    ensures Add32(0, nn) == nn && Add32(nn, Sub32(r, r)) == nn
  {
  }

  lemma OneMore(nn: int, x: int, r: int)
    ensures Add32(Add32(nn, 1), Sub32(x, Add32(r, 1))) == Add32(nn, Sub32(x, r))
  {
  }

  lemma AddTelescope(te: int, ie: int, x: int, e: int, s: int)
    requires Add32(te, ie) == Sub32(x, e)
    ensures Add32(Sub32(e, s) + te, ie) == Sub32(x, s)
  {
  }

  lemma AddShift(tr: int, nn2: int, nn: int, d: uint32)
    requires Add32(tr, nn2) == Add32(0, d)
    ensures Add32(nn + tr, nn2) == Add32(nn, d)
  {
  }

  /** Right after the first packet, the intervals add up to `extHighSeqNr - baseSeqNr` and to
      `packetsReceived`. */
  lemma IntervalsAddUpFromStart(n0: Numbering, first: uint16, events: seq<Event>)
    requires n0.packetsReceived == 0 && n0.numNewPackets == 0
    ensures
      var r := RunEvents(AcceptFirst(n0, first), events);
      && Add32(TotalExpected(r.1), IntervalExpected(r.0)) == Sub32(r.0.extHighSeqNr, r.0.baseSeqNr)
      && Add32(TotalReceived(r.1), r.0.numNewPackets) == r.0.packetsReceived
  {
    var n1 := AcceptFirst(n0, first);
    IntervalsAddUp(n1, events);
    hide Add32, Sub32;
    BackToCount(RunEvents(n1, events).0.packetsReceived);
  }

  lemma BackToCount(r: uint32)
    ensures Add32(0, 1) == 1 && Add32(1, Sub32(r, 1)) == r
  {
  }

  /** The fraction put in a report block: lost / expected * 256, cut to an integer. */
  function FractionLost(expected: uint32, received: uint32): int
    requires expected < received || expected != 0
  {
    if expected < received then 0 else (expected - received) * 256 / expected
  }

  /** It fits the 8-bit field if and only if at least one packet came in the interval. */
  lemma FractionFits(expected: uint32, received: uint32)
    requires expected < received || expected != 0
    ensures 0 <= FractionLost(expected, received)
    ensures FractionLost(expected, received) <= 255 <==> received > 0
    ensures expected >= received ==>
      var f := FractionLost(expected, received);
      f * expected <= (expected - received) * 256 < (f + 1) * expected
  {
    if expected >= received {
      var x := (expected - received) * 256;
      assert x == FractionLost(expected, received) * expected + x % expected;
      QuotientBelow(x, expected, 256);
    }
  }

  lemma QuotientBelow(x: nat, d: nat, bound: nat)
    requires d > 0
    ensures x / d >= 0 && (x / d < bound <==> x < bound * d)
  {
    assert x == x / d * d + x % d;
    if x / d < bound {
      assert (x / d + 1) * d <= bound * d;
    } else {
      assert x / d * d >= bound * d;
    }
  }

  // ---------------------------------------------------------------- probation

  function Step16(a: uint16): uint16 {
    (a + 1) % 0x1_0000
  }

  /** Packet `i` ends three consecutive 16-bit numbers. */
  predicate EndsThree(packets: seq<Arrival>, i: nat)
    requires i < |packets|
  {
    && i >= 2
    && packets[i].seqNr == Step16(packets[i - 1].seqNr)
    && packets[i - 1].seqNr == Step16(packets[i - 2].seqNr)
  }

  /** The statistics after a list of packets, under probation. */
  function RunStats(packets: seq<Arrival>): Stats {
    if packets == [] then Initial
    else
      var last := |packets| - 1;
      Process(RunStats(packets[..last]), packets[last], true).stats
  }

  /** As long as no packet ended three consecutive numbers none was accepted, and the next one is
      accepted exactly when it does: the first accepted packet is the first that ends three. */
  lemma {:induction false} ProbationAcceptsThirdInARow(packets: seq<Arrival>)
    requires packets != []
    requires forall i | 0 <= i < |packets| - 1 :: !EndsThree(packets, i)
    ensures
      var last := |packets| - 1;
      var s := RunStats(packets[..last]);
      var r := Process(s, packets[last], true);
      && !s.nr.sentData
      && (r.accept <==> EndsThree(packets, last))
      && (r.accept <==> !r.onProbation)
      && r.stats.probation == Probation(packets[last].seqNr,
           if r.accept then 0
           else if last >= 1 && packets[last].seqNr == Step16(packets[last - 1].seqNr) then 1
           else 2)
  {
    var last := |packets| - 1;
    var before := packets[..last];
    if last == 0 {
      assert RunStats(before) == Initial;
    } else {
      forall i | 0 <= i < |before| - 1
        ensures !EndsThree(before, i)
      {
        assert !EndsThree(packets, i);
      }
      ProbationAcceptsThirdInARow(before);
      assert EndsThree(before, last - 1) <==> EndsThree(packets, last - 1);
    }
  }

  // ---------------------------------------------------------------- timestamps

  /** For two timestamps whose true distance is `d`, the jitter code finds `d` exactly when `|d|` is
      below 2^28 or the 32-bit counter wrapped between them. */
  lemma TimestampDiffExact(prev: uint32, d: int)
    requires -0x8000_0000 <= d < 0x8000_0000
    ensures TimestampDiff((prev + d) % 0x1_0000_0000, prev) == d
       <==> -0x1000_0000 < d < 0x1000_0000 || !(0 <= prev + d < 0x1_0000_0000)
  {
    var cur := (prev + d) % 0x1_0000_0000;
    assert cur == prev + d || cur == prev + d + 0x1_0000_0000 || cur == prev + d - 0x1_0000_0000;
  }
}
