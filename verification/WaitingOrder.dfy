/** Exactly when the packets that wait in the queue of a source are in the order of their true indices,
    while more come and the application reads. */
module WaitingOrder {
  import opened Bytes
  import opened SourceStats
  import opened ReceiveRuns
  import opened PacketQueue
  import opened SourceData
  import opened ArrivalOrder

  ghost predicate Ascending(indices: seq<int>) {
    forall i, j | 0 <= i < j < |indices| :: indices[i] < indices[j]
  }

  /** The packets waiting in the queue are those with the true indices `waiting`, each under its own
      number; there is room for one more cycle before the numbers wrap at 32 bits. */
  ghost predicate Waits(e: Entry, k: int, high: int, waiting: seq<int>) {
    && Following(e, k, high) && high + 0x1_0000 < k + 0x1_0000_0000 && |waiting| == |e.queue|
    && forall i | 0 <= i < |waiting| :: k <= waiting[i] <= high && e.queue[i].seqNr == waiting[i] - k
  }

  lemma WaitsAscending(e: Entry, k: int, high: int, waiting: seq<int>)
    requires Waits(e, k, high, waiting)
    ensures Ascending(waiting)
  {
    hide Tracks;
  }

  function Put<T>(s: seq<T>, j: nat, x: T): seq<T>
    requires j <= |s|
  {
    s[..j] + [x] + s[j..]
  }

  /** Where a number not in the queue goes. */
  lemma PutAt(q: seq<Packet>, p: Packet) returns (j: nat)
    requires Increasing(q) && !Holds(q, p.seqNr)
    ensures j <= |q| && Insert(q, p) == Put(q, j, p)
    ensures forall i | 0 <= i < j :: q[i].seqNr < p.seqNr
    ensures forall i | j <= i < |q| :: q[i].seqNr > p.seqNr
    ensures (forall i | 0 <= i < |q| :: q[i].seqNr < p.seqNr) ==> j == |q|
  {
    j := Before(q, p.seqNr);
    InsertIs(q, p);
    HoldsAt(q, p.seqNr, j);
    assert j < |q| ==> q[j].seqNr > p.seqNr;
  }

  /** The number a packet gets: its own, or that of a cycle later. */
  lemma NumberGiven(e: Entry, k: int, high: int, waiting: seq<int>, index: int)
    requires Waits(e, k, high, waiting) && InWindow(high, index) && k <= index
    ensures
      Extend(e.stats.nr, index % 0x1_0000) == (if FromBeforeWrap(high, index) then index + 0x1_0000 else index) - k
  {
    hide Increasing, Extend, Tracks;
    ExtendStep(e.stats.nr, k, high, index);
  }

  /** One packet that is not waiting yet goes to place `j`. Afterwards the waiting packets are out of the
      order of their true indices exactly if it comes from before a wrap and one with a larger index is
      still waiting. */
  lemma OrderBreaks(e: Entry, k: int, high: int, waiting: seq<int>, c: Coming) returns (j: nat)
    requires Waits(e, k, high, waiting) && InWindow(high, c.index) && k <= c.index && c.index !in waiting
    ensures j <= |waiting| == |e.queue|
    ensures
      var number := Extend(e.stats.nr, c.index % 0x1_0000);
      WithPacket(e, ArrivalOf(c), c.data).queue == Put(e.queue, j, Packet(number, c.data))
    ensures !Ascending(Put(waiting, j, c.index))
       <==> FromBeforeWrap(high, c.index) && exists i :: 0 <= i < |waiting| && waiting[i] > c.index
  {
    hide WithPacket, Insert, Tracks, Extend;
    FollowingMeans(e, k, high);
    OnePacket(e, c);
    NumberGiven(e, k, high, waiting, c.index);
    WaitsAscending(e, k, high, waiting);
    var n := Extend(e.stats.nr, c.index % 0x1_0000);
    assert !Holds(e.queue, n);
    j := PutAt(e.queue, Packet(n, c.data));
    if FromBeforeWrap(high, c.index) {
      assert forall i | 0 <= i < |e.queue| :: e.queue[i].seqNr < n;
      PutLast(waiting, c.index);
    } else {
      PutBetween(waiting, j, c.index);
    }
  }

  lemma PutLast(s: seq<int>, x: int)
    requires Ascending(s)
    ensures Ascending(Put(s, |s|, x)) <==> forall i | 0 <= i < |s| :: s[i] < x
  {
    var r := Put(s, |s|, x);
    assert r == s + [x];
    if Ascending(r) {
      forall i | 0 <= i < |s|
        ensures s[i] < x
      {
        assert r[i] == s[i] && r[|s|] == x;
      }
    }
  }

  lemma PutBetween(s: seq<int>, j: nat, x: int)
    requires Ascending(s) && j <= |s|
    requires (forall i | 0 <= i < j :: s[i] < x) && forall i | j <= i < |s| :: s[i] > x
    ensures Ascending(Put(s, j, x))
  {
    var r := Put(s, j, x);
    assert forall i | 0 <= i < |r| :: r[i] == if i < j then s[i] else if i == j then x else s[i - 1];
  }

  // ---------------------------------------------------------------- runs with an application that reads

  /** What happens to a followed source: a packet comes, or the application takes the first one. */
  datatype Happening = Comes(coming: Coming) | Read

  function Happened(e: Entry, h: Happening): Entry {
    match h
    case Comes(c) => WithPacket(e, ArrivalOf(c), c.data)
    case Read => if e.queue == [] then e else e.(queue := e.queue[1..])
  }

  function HappenedAll(e: Entry, hs: seq<Happening>): Entry
    decreases |hs|
  {
    if hs == [] then e else HappenedAll(Happened(e, hs[0]), hs[1..])
  }

  function HighAfter(high: int, h: Happening): int {
    if h.Comes? then Max(high, h.coming.index) else high
  }

  function HighAfterAll(high: int, hs: seq<Happening>): int
    decreases |hs|
  {
    if hs == [] then high else HighAfterAll(HighAfter(high, hs[0]), hs[1..])
  }

  /** Packets come inside the window, none from before a wrap, and the numbers do not wrap at 32 bits. */
  predicate Steady(k: int, high: int, hs: seq<Happening>)
    decreases |hs|
  {
    hs != [] ==>
      && (hs[0].Comes? ==>
            var index := hs[0].coming.index;
            && InWindow(high, index) && !FromBeforeWrap(high, index)
            && k <= index && index + 0x1_0000 < k + 0x1_0000_0000)
      && Steady(k, HighAfter(high, hs[0]), hs[1..])
  }

  lemma ComesSteadily(e: Entry, k: int, high: int, waiting: seq<int>, c: Coming) returns (after: seq<int>)
    requires Waits(e, k, high, waiting) && InWindow(high, c.index) && !FromBeforeWrap(high, c.index)
    requires k <= c.index && c.index + 0x1_0000 < k + 0x1_0000_0000
    ensures Waits(Happened(e, Comes(c)), k, Max(high, c.index), after)
    ensures forall x :: x in after <==> x in waiting || x == c.index
  {
    hide WithPacket, Tracks, Extend, Increasing, CountLater, Insert;
    FollowingMeans(e, k, high);
    OnePacket(e, c);
    NumberGiven(e, k, high, waiting, c.index);
    TracksNext(e, k, high, c.index);
    var n := c.index - k;
    var p := Packet(n, c.data);
    InsertSound(e.queue, p);
    if c.index in waiting {
      var i :| 0 <= i < |waiting| && waiting[i] == c.index;
      assert e.queue[i].seqNr == n;
      AlreadyThere(e.queue, p);
      after := waiting;
    } else {
      assert !Holds(e.queue, n);
      var j := PutAt(e.queue, p);
      after := Put(waiting, j, c.index);
      PutWaits(e.queue, waiting, j, p, c.index, k);
    }
  }

  lemma TracksNext(e: Entry, k: int, high: int, index: int)
    requires Following(e, k, high) && InWindow(high, index) && !FromBeforeWrap(high, index)
    ensures Tracks(CountLater(e.stats.nr, index % 0x1_0000), k, Max(high, index))
  {
    ExtendStep(e.stats.nr, k, high, index);
  }

  lemma AlreadyThere(q: seq<Packet>, p: Packet)
    requires Increasing(q) && Holds(q, p.seqNr)
    ensures Insert(q, p) == q
  {
    InsertIs(q, p);
    HoldsAt(q, p.seqNr, Before(q, p.seqNr));
  }

  lemma PutWaits(q: seq<Packet>, waiting: seq<int>, j: nat, p: Packet, index: int, k: int)
    requires |q| == |waiting| && j <= |q| && p.seqNr == index - k
    requires forall i | 0 <= i < |q| :: q[i].seqNr == waiting[i] - k
    ensures |Put(q, j, p)| == |Put(waiting, j, index)| == |q| + 1
    ensures forall i | 0 <= i <= |q| :: Put(q, j, p)[i].seqNr == Put(waiting, j, index)[i] - k
    ensures forall x :: x in Put(waiting, j, index) <==> x in waiting || x == index
  {
    assert waiting == waiting[..j] + waiting[j..];
  }

  lemma ReadsFirst(e: Entry, k: int, high: int, waiting: seq<int>)
    requires Waits(e, k, high, waiting)
    ensures Waits(Happened(e, Read), k, high, if waiting == [] then [] else waiting[1..])
  {
    hide Tracks;
  }

  /** Over every steady run of packets and reads the waiting packets stand under their own numbers, hence
      in the order of their true indices; `OrderBreaks` says what the first packet from before a wrap does
      to them. */
  lemma {:induction false} SteadyRunWaits(e: Entry, k: int, high: int, waiting: seq<int>,
      hs: seq<Happening>) returns (after: seq<int>)
    requires Waits(e, k, high, waiting) && Steady(k, high, hs)
    ensures Waits(HappenedAll(e, hs), k, HighAfterAll(high, hs), after) && Ascending(after)
    decreases |hs|
  {
    hide Waits, Happened, Ascending;
    if hs == [] {
      WaitsAscending(e, k, high, waiting);
      after := waiting;
    } else {
      var next;
      match hs[0] {
        case Comes(c) => next := ComesSteadily(e, k, high, waiting, c);
        case Read =>
          ReadsFirst(e, k, high, waiting);
          next := if waiting == [] then [] else waiting[1..];
      }
      after := SteadyRunWaits(Happened(e, hs[0]), k, HighAfter(high, hs[0]), next, hs[1..]);
    }
  }

  /** When the application has taken packet 65536 before 65535 comes, the queue stays in order although
      65535 gets a wrong number. */
  lemma NobodyWaits(e: Entry, c: Coming)
    requires Waits(e, 0, 65536, []) && c.index == 65535
    ensures FromBeforeWrap(65536, c.index)
    ensures WithPacket(e, ArrivalOf(c), c.data).queue == [Packet(131071, c.data)]
  {
    hide WithPacket, Tracks, Extend;
    NumberGiven(e, 0, 65536, [], 65535);
    var j := OrderBreaks(e, 0, 65536, [], c);
  }
}
