/** The queue of a source over whole runs of packets given by their true indices: what the network may
    reorder without changing the queue, and exactly when every packet stands under its own number. */
module ArrivalOrder {
  import opened Bytes
  import opened SourceStats
  import opened ReceiveRuns
  import opened PacketQueue
  import opened SourceData

  /** A packet on its way: its true index, of which it carries the low 16 bits, and the rest of it. */
  datatype Coming = Coming(index: int, timestamp: uint32, time: Time, tsUnit: real, data: seq<byte>)

  function ArrivalOf(c: Coming): Arrival {
    Arrival(c.index % 0x1_0000, c.timestamp, c.time, c.tsUnit, false)
  }

  /** The entry after the packets `cs` have come. */
  function Receive(e: Entry, cs: seq<Coming>): Entry
    decreases |cs|
  {
    if cs == [] then e else Receive(WithPacket(e, ArrivalOf(cs[0]), cs[0].data), cs[1..])
  }

  function Indices(cs: seq<Coming>): (s: seq<int>)
    ensures |s| == |cs| && forall i | 0 <= i < |cs| :: s[i] == cs[i].index
  {
    seq(|cs|, i requires 0 <= i < |cs| => cs[i].index)
  }

  /** The packets with the numbers `ns` the statistics gave them. */
  function Numbered(cs: seq<Coming>, ns: seq<uint32>): (ps: seq<Packet>)
    requires |ns| == |cs|
    ensures |ps| == |cs| && forall i | 0 <= i < |cs| :: ps[i] == Packet(ns[i], cs[i].data)
  {
    seq(|cs|, i requires 0 <= i < |cs| => Packet(ns[i], cs[i].data))
  }

  /** The packet under its own number, for the shift `k`. */
  function Own(c: Coming, k: int): Packet {
    Packet((c.index - k) % 0x1_0000_0000, c.data)
  }

  /** A validated source whose statistics have seen true indices up to `high`. */
  ghost predicate Following(e: Entry, k: int, high: int) {
    e.validated && Increasing(e.queue) && Tracks(e.stats.nr, k, high)
  }

  /** No index comes twice, and no two are 2^32 apart. */
  ghost predicate Apart(cs: seq<Coming>) {
    forall i, j | 0 <= i < j < |cs| ::
      cs[i].index != cs[j].index && -0x1_0000_0000 < cs[i].index - cs[j].index < 0x1_0000_0000
  }

  /** Without probation a source is followed from its first packet on. */
  lemma FirstFollowed(ssrc: uint32, c: Coming) returns (k: int)
    ensures
      var e := WithPacket(NewEntry(ssrc, NoProbation), ArrivalOf(c), c.data);
      Following(e, k, c.index) && e.queue == [Own(c, k)]
  {
    hide Tracks;
    k := FirstStep(Initial.nr, c.index);
    assert Insert([], Own(c, k)) == [Own(c, k)];
  }

  // ---------------------------------------------------------------- what a run leaves

  lemma {:induction false} RunLength(n: Numbering, indices: seq<int>)
    ensures |RunLater(n, indices).1| == |indices|
    decreases |indices|
  {
    if indices != [] {
      RunLength(CountLater(n, indices[0] % 0x1_0000), indices[1..]);
    }
  }

  /** Whatever comes, the entry numbers and queues the packets one by one. */
  lemma {:induction false} ReceiveIsFill(e: Entry, cs: seq<Coming>)
    requires e.validated && e.stats.nr.sentData
    ensures |RunLater(e.stats.nr, Indices(cs)).1| == |cs|
    ensures
      var r := RunLater(e.stats.nr, Indices(cs));
      && Receive(e, cs).stats.nr == r.0
      && Receive(e, cs).queue == Fill(e.queue, Numbered(cs, r.1), true)
    decreases |cs|
  {
    RunLength(e.stats.nr, Indices(cs));
    if cs != [] {
      var f := WithPacket(e, ArrivalOf(cs[0]), cs[0].data);
      OnePacket(e, cs[0]);
      ReceiveIsFill(f, cs[1..]);
      assert Indices(cs)[1..] == Indices(cs[1..]);
      hide WithPacket, CountLater, Extend, Enqueue;
      var r := RunLater(e.stats.nr, Indices(cs));
      assert Numbered(cs, r.1)[1..] == Numbered(cs[1..], RunLater(f.stats.nr, Indices(cs[1..])).1);
    }
  }

  lemma OnePacket(e: Entry, c: Coming)
    requires e.validated && e.stats.nr.sentData
    ensures
      var f := WithPacket(e, ArrivalOf(c), c.data);
      && f.validated && f.stats.nr.sentData && f.stats.nr == CountLater(e.stats.nr, c.index % 0x1_0000)
      && f.queue == Enqueue(e.queue, Packet(Extend(e.stats.nr, c.index % 0x1_0000), c.data), true)
  {
    hide Enqueue, Extend, CyclesFor, Advances, JitterAfter;
  }

  // ---------------------------------------------------------------- reordering

  lemma OwnPackets(cs: seq<Coming>, ps: seq<Packet>, k: int, x: Packet)
    requires |ps| == |cs| && (forall i | 0 <= i < |cs| :: ps[i] == Own(cs[i], k)) && Apart(cs)
    ensures NumbersDistinct(ps)
    ensures x in ps <==> exists c :: c in cs && x == Own(c, k)
  {
    hide Own;
    forall i, j | 0 <= i < j < |ps|
      ensures ps[i].seqNr != ps[j].seqNr
    {
      OwnDiffer(cs[i], cs[j], k);
    }
    if c :| c in cs && x == Own(c, k) {
      var i :| 0 <= i < |cs| && cs[i] == c;
      assert ps[i] == x;
    }
    if i :| 0 <= i < |ps| && ps[i] == x {
      assert cs[i] in cs;
    }
  }

  lemma OwnDiffer(c: Coming, d: Coming, k: int)
    requires c.index != d.index && -0x1_0000_0000 < c.index - d.index < 0x1_0000_0000
    ensures Own(c, k).seqNr != Own(d, k).seqNr
  {
  }

  /** An orderly run gives every packet its own number. */
  lemma OrderlyNumbers(n: Numbering, k: int, high: int, cs: seq<Coming>) returns (ps: seq<Packet>)
    requires Tracks(n, k, high) && Orderly(high, Indices(cs))
    ensures |RunLater(n, Indices(cs)).1| == |cs| == |ps|
    ensures ps == Numbered(cs, RunLater(n, Indices(cs)).1)
    ensures forall i | 0 <= i < |cs| :: ps[i] == Own(cs[i], k)
  {
    hide Tracks, Orderly, RunLater;
    SequenceExtension(n, k, high, Indices(cs));
    ps := Numbered(cs, RunLater(n, Indices(cs)).1);
  }

  /** An orderly run queues every packet under its own number. */
  lemma OrderlyQueue(e: Entry, k: int, high: int, cs: seq<Coming>, x: Packet)
    requires Following(e, k, high) && Orderly(high, Indices(cs)) && Apart(cs)
    ensures Increasing(Receive(e, cs).queue)
    ensures x in Receive(e, cs).queue
       <==> x in e.queue || (!Holds(e.queue, x.seqNr) && exists c :: c in cs && x == Own(c, k))
  {
    hide Receive, RunLater, Fill, Holds, Increasing, Orderly, FirstOfItsNumber, Apart, Own, NumbersDistinct, Indices,
      Numbered;
    ReceiveIsFill(e, cs);
    var ps := OrderlyNumbers(e.stats.nr, k, high, cs);
    OwnPackets(cs, ps, k, x);
    FillContent(e.queue, ps, x);
    FirstOfDistinct(e.queue, ps, x);
  }

  /** The network may reorder the packets of a source as long as every order is an orderly one: the
      queue and the counts come out the same. */
  lemma ArrivalOrderDoesNotMatter(e: Entry, k: int, high: int, cs: seq<Coming>, ds: seq<Coming>)
    requires Following(e, k, high) && Apart(cs) && Apart(ds)
    requires forall c :: c in cs <==> c in ds
    requires Orderly(high, Indices(cs)) && Orderly(high, Indices(ds))
    ensures Receive(e, cs).queue == Receive(e, ds).queue
    ensures Receive(e, cs).stats.nr == Receive(e, ds).stats.nr
  {
    hide Receive, Orderly, Apart, Holds, Increasing, Following, Own, Indices;
    forall x
      ensures x in Receive(e, cs).queue <==> x in Receive(e, ds).queue
    {
      OrderlyQueue(e, k, high, cs, x);
      OrderlyQueue(e, k, high, ds, x);
    }
    OrderlyQueue(e, k, high, cs, Packet(0, []));
    OrderlyQueue(e, k, high, ds, Packet(0, []));
    IncreasingUnique(Receive(e, cs).queue, Receive(e, ds).queue);
    SameCountsInAnyOrder(e, k, high, cs, ds);
  }

  /** The highest index of a run is that of the start or of one of its packets. */
  lemma {:induction false} HighestIsOne(high: int, indices: seq<int>)
    ensures Highest(high, indices) == high || Highest(high, indices) in indices
    decreases |indices|
  {
    if indices != [] {
      HighestIsOne(Max(high, indices[0]), indices[1..]);
    }
  }

  lemma HighestInAnyOrder(high: int, a: seq<int>, b: seq<int>)
    requires forall i :: i in a <==> i in b
    ensures Highest(high, a) == Highest(high, b)
  {
    HighestBounds(high, a);
    HighestBounds(high, b);
    HighestIsOne(high, a);
    HighestIsOne(high, b);
  }

  lemma SameIndices(cs: seq<Coming>, ds: seq<Coming>)
    requires Apart(cs) && Apart(ds) && forall c :: c in cs <==> c in ds
    ensures forall i :: i in Indices(cs) <==> i in Indices(ds)
    ensures |cs| == |ds|
  {
    forall i
      ensures i in Indices(cs) <==> i in Indices(ds)
    {
      IndexIn(cs, i);
      IndexIn(ds, i);
    }
    DistinctSize(Indices(cs));
    DistinctSize(Indices(ds));
    assert (set i | i in Indices(cs)) == (set i | i in Indices(ds));
  }

  lemma IndexIn(cs: seq<Coming>, i: int)
    ensures i in Indices(cs) <==> exists c :: c in cs && c.index == i
  {
    if i in Indices(cs) {
      var j :| 0 <= j < |cs| && Indices(cs)[j] == i;
      assert cs[j] in cs;
    }
    if c :| c in cs && c.index == i {
      var j :| 0 <= j < |cs| && cs[j] == c;
      assert Indices(cs)[j] == i;
    }
  }

  lemma SameCountsInAnyOrder(e: Entry, k: int, high: int, cs: seq<Coming>, ds: seq<Coming>)
    requires Following(e, k, high) && Apart(cs) && Apart(ds)
    requires forall c :: c in cs <==> c in ds
    requires Orderly(high, Indices(cs)) && Orderly(high, Indices(ds))
    ensures Receive(e, cs).stats.nr == Receive(e, ds).stats.nr
  {
    hide Receive, RunLater, Highest, Orderly, Increasing, Add32, Apart, Indices, Fill;
    ReceiveIsFill(e, cs);
    ReceiveIsFill(e, ds);
    var n := e.stats.nr;
    SequenceExtension(n, k, high, Indices(cs));
    SequenceExtension(n, k, high, Indices(ds));
    RunCounts(n, Indices(cs));
    RunCounts(n, Indices(ds));
    SameIndices(cs, ds);
    HighestInAnyOrder(high, Indices(cs), Indices(ds));
    NumberingIs(RunLater(n, Indices(cs)).0, RunLater(n, Indices(ds)).0, k, Highest(high, Indices(cs)));
  }

  lemma NumberingIs(n: Numbering, m: Numbering, k: int, high: int)
    requires Tracks(n, k, high) && Tracks(m, k, high)
    requires n.packetsReceived == m.packetsReceived && n.numNewPackets == m.numNewPackets
    requires n.baseSeqNr == m.baseSeqNr && n.savedExtSeqNr == m.savedExtSeqNr
    ensures n == m
  {
  }

  // ---------------------------------------------------------------- own numbers

  /** Every packet comes within 32768 of the highest true index so far. */
  predicate Windowed(high: int, indices: seq<int>)
    decreases |indices|
  {
    indices != [] ==> InWindow(high, indices[0]) && Windowed(Max(high, indices[0]), indices[1..])
  }

  /** The queue `q` holds what was there `before`, and every one of the packets `cs` under its own number;
      so it is in the order of true indices, too. */
  ghost predicate UnderOwnNumbers(q: seq<Packet>, before: seq<Packet>, cs: seq<Coming>, k: int) {
    Increasing(q) && forall x :: x in q <==> x in before || exists c :: c in cs && x == Own(c, k)
  }

  /** Indices that 32 bits tell apart when counted from `k`, and that are not in the queue yet. */
  ghost predicate Awaited(q: seq<Packet>, cs: seq<Coming>, k: int) {
    Apart(cs) && forall c | c in cs :: k <= c.index < k + 0x1_0000_0000 && !Holds(q, c.index - k)
  }

  lemma {:induction false} OrderlyPrefix(high: int, indices: seq<int>, m: nat)
    requires Orderly(high, indices) && m <= |indices|
    ensures Orderly(high, indices[..m])
    decreases m
  {
    if m > 0 {
      assert indices[..m][1..] == indices[1..][..m - 1];
      OrderlyPrefix(Max(high, indices[0]), indices[1..], m - 1);
    }
  }

  /** In a run that is not orderly, the packet at `j` is the first to get a wrong number. */
  lemma {:induction false} FirstMistake(n: Numbering, k: int, high: int, indices: seq<int>) returns (j: nat)
    requires Tracks(n, k, high) && Windowed(high, indices) && !Orderly(high, indices)
    ensures j < |indices| && |RunLater(n, indices[..j + 1]).1| == j + 1
    ensures RunLater(n, indices[..j + 1]).1[j] != (indices[j] - k) % 0x1_0000_0000
    ensures forall i | 0 <= i < j :: RunLater(n, indices[..j + 1]).1[i] == (indices[i] - k) % 0x1_0000_0000
    decreases |indices|
  {
    hide Tracks, Extend, CountLater, RunLater;
    ExtendStep(n, k, high, indices[0]);
    if FromBeforeWrap(high, indices[0]) {
      j := 0;
      assert indices[..1] == [indices[0]];
      OneNumbered(n, indices[0]);
    } else {
      var m, tail := CountLater(n, indices[0] % 0x1_0000), indices[1..];
      var rest := FirstMistake(m, k, Max(high, indices[0]), tail);
      j := rest + 1;
      MoreNumbered(n, indices, j + 1);
      var r := RunLater(m, tail[..rest + 1]).1;
      forall i | 0 <= i <= j
        ensures i > 0 ==> RunLater(n, indices[..j + 1]).1[i] == r[i - 1] && indices[i] == tail[i - 1]
      {
      }
    }
  }

  lemma OneNumbered(n: Numbering, index: int)
    ensures RunLater(n, [index]).1 == [Extend(n, index % 0x1_0000)]
  {
    hide Extend, CountLater;
    assert [index][1..] == [];
  }

  lemma MoreNumbered(n: Numbering, indices: seq<int>, m: nat)
    requires 0 < m <= |indices|
    ensures
      var seqNr := indices[0] % 0x1_0000;
      RunLater(n, indices[..m]).1 == [Extend(n, seqNr)] + RunLater(CountLater(n, seqNr), indices[1..][..m - 1]).1
  {
    hide Extend, CountLater;
    assert indices[..m][1..] == indices[1..][..m - 1];
  }

  lemma OwnIfOrderly(e: Entry, k: int, high: int, cs: seq<Coming>)
    requires Following(e, k, high) && Awaited(e.queue, cs, k) && Orderly(high, Indices(cs))
    ensures UnderOwnNumbers(Receive(e, cs).queue, e.queue, cs, k)
  {
    hide Receive, Orderly, Increasing, Following, Own, Apart, Indices;
    OrderlyQueue(e, k, high, cs, Packet(0, []));
    forall x
      ensures x in Receive(e, cs).queue <==> x in e.queue || exists c :: c in cs && x == Own(c, k)
    {
      OrderlyQueue(e, k, high, cs, x);
      if c :| c in cs && x == Own(c, k) {
        OwnNumber(c, k);
      }
    }
  }

  lemma OwnNumber(c: Coming, k: int)
    requires k <= c.index < k + 0x1_0000_0000
    ensures Own(c, k).seqNr == c.index - k
  {
  }

  /** Once a packet has a wrong number, its own number is nowhere in the queue. */
  lemma NotOwnAfterMistake(e: Entry, k: int, cs: seq<Coming>, j: nat)
    requires e.validated && e.stats.nr.sentData && Increasing(e.queue) && Awaited(e.queue, cs, k) && j < |cs|
    requires |RunLater(e.stats.nr, Indices(cs)).1| == |cs| == j + 1
    requires RunLater(e.stats.nr, Indices(cs)).1[j] != (cs[j].index - k) % 0x1_0000_0000
    requires forall i | 0 <= i < j :: RunLater(e.stats.nr, Indices(cs)).1[i] == (cs[i].index - k) % 0x1_0000_0000
    ensures !UnderOwnNumbers(Receive(e, cs).queue, e.queue, cs, k)
  {
    hide Receive, RunLater, Fill, Increasing, Indices, Own, Holds, FirstOfItsNumber;
    ReceiveIsFill(e, cs);
    var ps, x := Numbered(cs, RunLater(e.stats.nr, Indices(cs)).1), Own(cs[j], k);
    FillContent(e.queue, ps, x);
    assert cs[j] in cs;
    OwnNumber(cs[j], k);
    forall i | 0 <= i < |ps|
      ensures ps[i].seqNr != x.seqNr
    {
      if i < j {
        OwnDiffer(cs[i], cs[j], k);
        NumberOf(cs[i], k);
      }
      NumberOf(cs[j], k);
    }
    NotFirst(e.queue, ps, x);
    HoldsMember(e.queue, x.seqNr);
    assert x !in Receive(e, cs).queue;
  }

  lemma NumberOf(c: Coming, k: int)
    ensures Own(c, k).seqNr == (c.index - k) % 0x1_0000_0000
  {
  }

  lemma NotFirst(q: seq<Packet>, ps: seq<Packet>, x: Packet)
    requires forall i | 0 <= i < |ps| :: ps[i].seqNr != x.seqNr
    ensures !FirstOfItsNumber(q, ps, x)
  {
  }

  lemma FollowingMeans(e: Entry, k: int, high: int)
    requires Following(e, k, high)
    ensures e.validated && e.stats.nr.sentData && Increasing(e.queue) && Tracks(e.stats.nr, k, high)
  {
  }

  /** At every moment of a run every packet stands under its own number, exactly if none comes from before
      a wrap of the 16-bit number. */
  lemma OwnNumbersExactly(e: Entry, k: int, high: int, cs: seq<Coming>)
    requires Following(e, k, high) && Awaited(e.queue, cs, k) && Windowed(high, Indices(cs))
    ensures (forall m | 0 <= m <= |cs| :: UnderOwnNumbers(Receive(e, cs[..m]).queue, e.queue, cs[..m], k))
       <==> Orderly(high, Indices(cs))
  {
    hide UnderOwnNumbers, Receive, Windowed, Orderly, Following, Tracks, Increasing, RunLater;
    forall m | 0 <= m <= |cs|
      ensures Indices(cs[..m]) == Indices(cs)[..m] && Awaited(e.queue, cs[..m], k)
    {
    }
    if Orderly(high, Indices(cs)) {
      forall m | 0 <= m <= |cs|
        ensures UnderOwnNumbers(Receive(e, cs[..m]).queue, e.queue, cs[..m], k)
      {
        OrderlyPrefix(high, Indices(cs), m);
        OwnIfOrderly(e, k, high, cs[..m]);
      }
    } else {
      FollowingMeans(e, k, high);
      var j := FirstMistake(e.stats.nr, k, high, Indices(cs));
      NotOwnAfterMistake(e, k, cs[..j + 1], j);
    }
  }

  // ---------------------------------------------------------------- a swap

  /** The packets 65534, 65535 and 65536 of a new source. In order they stand in the queue as they came;
      with the last two swapped the late one gets number 131071 and stands behind both. */
  lemma SwapAtWrap(a: Coming, b: Coming, c: Coming)
    requires a.index == 65534 && b.index == 65535 && c.index == 65536
    ensures
      var e := NewEntry(1, NoProbation);
      && Receive(e, [a, b, c]).queue == [Packet(65534, a.data), Packet(65535, b.data), Packet(65536, c.data)]
      && Receive(e, [a, c, b]).queue == [Packet(65534, a.data), Packet(65536, c.data), Packet(131071, b.data)]
  {
    hide WithPacket, Insert;
    var e := NewEntry(1, NoProbation);
    var e1 := WithPacket(e, ArrivalOf(a), a.data);
    var p, q, r, late := Packet(65534, a.data), Packet(65535, b.data), Packet(65536, c.data), Packet(131071, b.data);
    ReceiveThree(e, a, b, c);
    ReceiveThree(e, a, c, b);
    FirstPacket(e, a);
    InsertIntoOne(p, q);
    OnePacket(e1, b);
    OnePacket(WithPacket(e1, ArrivalOf(b), b.data), c);
    InsertHere([p, q], r, 2);
    InsertIntoOne(p, r);
    OnePacket(e1, c);
    OnePacket(WithPacket(e1, ArrivalOf(c), c.data), b);
    InsertHere([p, r], late, 2);
  }

  lemma ReceiveThree(e: Entry, a: Coming, b: Coming, c: Coming)
    ensures Receive(e, [a, b, c])
         == WithPacket(WithPacket(WithPacket(e, ArrivalOf(a), a.data), ArrivalOf(b), b.data), ArrivalOf(c), c.data)
  {
    hide WithPacket;
    var e1 := WithPacket(e, ArrivalOf(a), a.data);
    var e2 := WithPacket(e1, ArrivalOf(b), b.data);
    assert [a, b, c][1..] == [b, c] && [b, c][1..] == [c] && [c][1..] == [];
    assert Receive(e2, [c]) == WithPacket(e2, ArrivalOf(c), c.data);
    assert Receive(e1, [b, c]) == Receive(e2, [c]);
  }

  lemma FirstPacket(e: Entry, a: Coming)
    requires e == NewEntry(1, NoProbation) && a.index == 65534
    ensures
      var f := WithPacket(e, ArrivalOf(a), a.data);
      && f.validated && f.stats.nr == Numbering(true, 1, 0, 65533, 65534, 1, 65533)
      && f.queue == [Packet(65534, a.data)]
  {
  }
}
