/** Two packets in a row after which one source has two report blocks in one packet. */
module RepeatedReport {
  import opened Bytes
  import opened RtcpPackets
  import opened SdesPacket
  import opened CompoundFormat
  import opened CompoundRuns
  import opened SourceStats
  import opened SourceData
  import opened SourceRuns
  import opened SourceTable
  import opened ReportMarks
  import opened ReportPass
  import opened ReportRuns
  import opened PacketBuilder
  import PacketQueue
  import ReceiveRuns

  // ---------------------------------------------------------------- packets as turns

  /** Whatever the packet builder covers, it leaves the table as a turn of a run does, and its blocks are
      those of the turn. */
  lemma CoversIsTurn(c: Content, max: nat, w: World, now: Time, fs: seq<Entry>, first: nat, second: nat,
      items: bool, left: bool)
    requires WorldOk(w) && Covers(c, max, w.last, w.table.entries, fs, first, second, items, left)
    ensures
      var again := !(items && left) && first == |PendingOf(w.last, w.table.entries)|;
      Turned(w, Built(now, first, again, second)).table.entries == fs
    ensures TwoPasses(c.blocks, w.last, w.table.entries, first, second)
    ensures second > 0 ==> first == |PendingOf(w.last, w.table.entries)|
  {
    hide Marked, SecondStart, TableOk, ContentOk, NeededWithBlock, PendingOf, ReportsOnAll, FlaggedCount, EligibleOf;
    NothingMarked(w.last, w.table.entries);
  }

  lemma NothingMarked(l: Last, es: seq<Entry>)
    ensures Marked(l, es, 0) == es
  {
    hide Pending, PendingOf;
  }

  // ---------------------------------------------------------------- the run

  /** The sources in the order of the table: ourselves, one that speaks late, and 25 others. */
  function Source(k: nat): uint32
    requires k < 27
  {
    if k == 0 then 99 else if k == 1 then 1 else 98 + k
  }

  /** Every source has an address of its own. */
  function From(ssrc: uint32): Sender {
    Some(IPv4Address(ssrc, 5000))
  }

  function PacketOf(ssrc: uint32, seqNr: uint16, time: Time): Incoming {
    Incoming(ssrc, [], Arrival(seqNr, 0, time, 0.0, false), [])
  }

  function Speaks(k: nat, seqNr: uint16, time: Time): Turn
    requires k < 27
  {
    Came(RtpCame(PacketOf(Source(k), seqNr, time), From(Source(k))))
  }

  /** We are there, the late speaker is heard by RTCP, and `n` of the others send a packet. */
  function Opening(n: nat): seq<Turn>
    requires n <= 25
  {
    [Came(OwnSsrcCreated(99)), Came(RtcpCame(1, Alive(0.0), From(1)))]
    + seq(n, i requires 0 <= i < n => Speaks(i + 2, 1, 1.0))
  }

  /** A packet that covers 24 sources is built; then `n` of all the other sources send. */
  function Going(n: nat): seq<Turn>
    requires n <= 26
  {
    Opening(25) + [Built(2.0, 24, false, 0)] + seq(n, i requires 0 <= i < n => Speaks(i + 1, 2, 3.0))
  }

  // ---------------------------------------------------------------- the table

  const OWN := OwnEntry(99, NoProbation)
  const QUIET := Touched(Addressed(NewEntry(1, NoProbation), From(1), false), 0.0)

  /** A source that has sent one packet. */
  function Speaker(i: nat): Entry
    requires i < 25
  {
    WithRtp(NewEntry(100 + i, NoProbation), PacketOf(100 + i, 1, 1.0), From(100 + i))
  }

  /** The table before the first packet. */
  function Before(): (es: seq<Entry>)
    ensures |es| == 27 && es[0] == OWN && es[1] == QUIET && forall i | 2 <= i < 27 :: es[i] == Speaker(i - 2)
  {
    seq(27, i requires 0 <= i < 27 => if i == 0 then OWN else if i == 1 then QUIET else Speaker(i - 2))
  }

  function Heard(e: Entry): Entry {
    WithRtp(e, PacketOf(e.ssrc, 2, 3.0), From(e.ssrc))
  }

  /** The first `n` of the other sources have sent again. */
  function SomeSpeak(es: seq<Entry>, n: nat): (fs: seq<Entry>)
    requires |es| == 27 && n <= 26
    ensures |fs| == 27 && forall i | 0 <= i < 27 :: fs[i] == if 1 <= i <= n then Heard(es[i]) else es[i]
  {
    seq(27, i requires 0 <= i < 27 => if 1 <= i <= n then Heard(es[i]) else es[i])
  }

  function AllSpeak(es: seq<Entry>): (fs: seq<Entry>)
    requires |es| == 27
    ensures |fs| == 27 && fs[0] == es[0] && forall i | 1 <= i < 27 :: fs[i] == Heard(es[i])
  {
    SomeSpeak(es, 26)
  }

  const FIRST := Last(true, 0.0)
  const SECOND := Last(false, 2.0)

  // ---------------------------------------------------------------- lists

  lemma {:induction false} ListsAppend(l: Last, es: seq<Entry>, fs: seq<Entry>)
    ensures PendingOf(l, es + fs) == PendingOf(l, es) + PendingOf(l, fs)
    ensures EligibleOf(l, es + fs) == EligibleOf(l, es) + EligibleOf(l, fs)
    decreases |fs|
  {
    hide Pending, Eligible;
    if fs == [] {
      assert es + fs == es;
    } else {
      var last := |fs| - 1;
      assert (es + fs)[..|es| + last] == es + fs[..last];
      ListsAppend(l, es, fs[..last]);
    }
  }

  lemma {:induction false} AllTaken(l: Last, es: seq<Entry>)
    ensures (forall e | e in es :: Pending(l, e)) ==> PendingOf(l, es) == es
    ensures (forall e | e in es :: Eligible(l, e)) ==> EligibleOf(l, es) == es
    ensures (forall e | e in es :: !Pending(l, e)) ==> PendingOf(l, es) == []
  {
    hide Pending, Eligible;
    if es != [] {
      assert es == es[..|es| - 1] + [es[|es| - 1]];
      AllTaken(l, es[..|es| - 1]);
    }
  }

  // ---------------------------------------------------------------- the entries

  lemma Entries(i: nat)
    requires i < 25
    ensures !Eligible(FIRST, OWN) && !Eligible(SECOND, OWN) && !Eligible(FIRST, QUIET) && Pending(FIRST, Speaker(i))
    ensures Pending(SECOND, Heard(QUIET)) && Heard(QUIET).ssrc == 1
    ensures Pending(SECOND, Heard(Speaker(i))) && Heard(Speaker(i)).ssrc == Speaker(i).ssrc == 100 + i
    ensures Eligible(SECOND, Heard(Reported(Speaker(i)))) && Heard(Reported(Speaker(i))).processed
    ensures Heard(Reported(Speaker(i))).ssrc == 100 + i
  {
    hide PacketQueue.Enqueue;
  }

  /** The table before the second packet, once the first one has flagged 24 sources. */
  function Between(): seq<Entry> {
    AllSpeak(Marked(FIRST, Before(), 24))
  }

  lemma FirstPass()
    ensures SsrcsDistinct(Before()) && |PendingOf(FIRST, Before())| == 25
    ensures forall i | 2 <= i <= 26 :: |PendingOf(FIRST, Before()[..i])| == i - 2
  {
    hide WithRtp, Eligible, Pending, NewEntry, PendingOf, EligibleOf, Speaker;
    forall i | 0 <= i < 25
      ensures Speaker(i).ssrc == 100 + i
    {
      Entries(i);
    }
    Identifiers();
    forall i | 2 <= i <= 27
      ensures |PendingOf(FIRST, Before()[..i])| == i - 2
    {
      PendingBefore(i);
    }
    assert Before()[..27] == Before();
  }

  lemma PendingBefore(i: nat)
    requires 2 <= i <= 27
    ensures |PendingOf(FIRST, Before()[..i])| == i - 2
  {
    hide WithRtp, Eligible, NewEntry, PendingOf, EligibleOf, Speaker, OwnEntry;
    Entries(0);
    var a, b := [OWN, QUIET], Before()[2..i];
    assert Before()[..i] == a + b;
    forall e | e in b
      ensures Pending(FIRST, e)
    {
      var k :| 0 <= k < |b| && b[k] == e;
      Entries(k);
    }
    ListsAppend(FIRST, a, b);
    AllTaken(FIRST, a);
    AllTaken(FIRST, b);
  }

  lemma Identifiers()
    ensures OWN.ssrc == 99 && QUIET.ssrc == 1
  {
  }

  lemma InBetween(i: nat)
    requires i < 27
    ensures
      Between()[i] ==
        if i == 0 then OWN
        else if i == 1 then Heard(QUIET)
        else if i == 26 then Heard(Speaker(24))
        else Heard(Reported(Speaker(i - 2)))
  {
    hide WithRtp, Eligible, NewEntry, PendingOf, Reported;
    FirstPass();
    Entries(if i >= 2 then i - 2 else 0);
  }

  /** What the second packet makes of the table: all but the first are eligible, and all of these but the
      first and the last are flagged. */
  ghost predicate Shaped(es: seq<Entry>) {
    && |es| == 27
    && (forall i | 0 <= i < 27 :: es[i].ssrc == if i == 0 then 99 else if i == 1 then 1 else 98 + i)
    && !Eligible(SECOND, es[0])
    && (forall i | 1 <= i < 27 :: Eligible(SECOND, es[i]))
    && (forall i | 1 <= i < 27 :: es[i].processed <==> 2 <= i < 26)
  }

  lemma BetweenShaped()
    ensures Shaped(Between())
  {
    hide WithRtp, NewEntry, Reported, Heard, Speaker, Eligible, Marked;
    forall i | 0 <= i < 27
      ensures
        var e := Between()[i];
        && e.ssrc == (if i == 0 then 99 else if i == 1 then 1 else 98 + i)
        && (Eligible(SECOND, e) <==> i > 0) && (i > 0 ==> (e.processed <==> 2 <= i < 26))
    {
      InBetween(i);
      Identifiers();
      Entries(if i >= 2 then i - 2 else 0);
    }
  }

  lemma NotTwice(es: seq<Entry>)
    requires Shaped(es)
    ensures SsrcsDistinct(es)
  {
  }

  lemma ShapedEligible(es: seq<Entry>)
    requires Shaped(es)
    ensures EligibleOf(SECOND, es) == es[1..]
  {
    hide Eligible;
    assert es == es[..1] + es[1..];
    ListsAppend(SECOND, es[..1], es[1..]);
    NothingEligible(SECOND, es[..1]);
    AllTaken(SECOND, es[1..]);
  }

  lemma ShapedPending(es: seq<Entry>)
    requires Shaped(es)
    ensures PendingOf(SECOND, es) == [es[1], es[26]]
  {
    hide Eligible, PendingOf, EligibleOf;
    var a, b, c, d := es[..1], es[1..2], es[2..26], es[26..];
    assert es == a + (b + (c + d));
    assert b == [es[1]] && d == [es[26]];
    Parts(a, b, c, d);
  }

  lemma Parts(a: seq<Entry>, b: seq<Entry>, c: seq<Entry>, d: seq<Entry>)
    requires forall e | e in a || e in c :: !Pending(SECOND, e)
    requires forall e | e in b || e in d :: Pending(SECOND, e)
    ensures PendingOf(SECOND, a + (b + (c + d))) == b + d
  {
    hide Pending, PendingOf, EligibleOf;
    AllTaken(SECOND, a);
    AllTaken(SECOND, b);
    AllTaken(SECOND, c);
    AllTaken(SECOND, d);
    ListsAppend(SECOND, a, b + (c + d));
    ListsAppend(SECOND, b, c + d);
    ListsAppend(SECOND, c, d);
  }

  /** What this comes to for the passes: two sources are pending, the late speaker the first of them and of
      all 26 that are eligible. */
  ghost predicate SecondTable(es: seq<Entry>) {
    && SsrcsDistinct(es)
    && |PendingOf(SECOND, es)| == 2 && PendingOf(SECOND, es)[0].ssrc == 1
    && |EligibleOf(SECOND, es)| == 26 && EligibleOf(SECOND, es)[0].ssrc == 1
    && FlaggedCount(EligibleOf(SECOND, es)) == 24
  }

  lemma SecondPass(es: seq<Entry>)
    requires Shaped(es)
    ensures SecondTable(es)
  {
    hide EligibleOf, PendingOf, FlaggedCount, Eligible, SsrcsDistinct;
    NotTwice(es);
    ShapedEligible(es);
    ShapedPending(es);
    ShapedFlagged(es);
  }

  lemma NothingEligible(l: Last, es: seq<Entry>)
    requires |es| == 1 && !Eligible(l, es[0])
    ensures EligibleOf(l, es) == []
  {
    assert es[..0] == [];
  }

  lemma ShapedFlagged(es: seq<Entry>)
    requires Shaped(es)
    ensures FlaggedCount(es[1..]) == 24
  {
    hide Eligible, FlaggedCount;
    var front, middle, last := es[1..2], es[2..26], es[26];
    assert es[1..] == front + middle + [last];
    FlaggedCountBound(middle);
    FlaggedCountBound([]);
    assert front == [] + [es[1]];
    FlaggedCountLast([], es[1]);
    FlaggedAppend(front, middle);
    FlaggedCountLast(front + middle, last);
  }

  lemma {:induction false} FlaggedAppend(es: seq<Entry>, fs: seq<Entry>)
    ensures FlaggedCount(es + fs) == FlaggedCount(es) + FlaggedCount(fs)
    decreases |fs|
  {
    if fs == [] {
      assert es + fs == es;
    } else {
      assert (es + fs)[..|es| + |fs| - 1] == es + fs[..|fs| - 1];
      FlaggedAppend(es, fs[..|fs| - 1]);
    }
  }

  // ---------------------------------------------------------------- the run leaves these tables

  /** The first packet of a source without probation. */
  lemma SpeakerComes(t: Table, i: nat)
    requires i < 25 && t.probation == NoProbation && Index(t.entries, 100 + i) == |t.entries|
    ensures AfterRtp(t, PacketOf(100 + i, 1, 1.0), From(100 + i)).entries == t.entries + [Speaker(i)]
    ensures AfterRtp(t, PacketOf(100 + i, 1, 1.0), From(100 + i)).probation == NoProbation
  {
    hide Index, WithRtp, IsActive;
    var n := |t.entries|;
    assert (t.entries + [NewEntry(100 + i, NoProbation)])[n := Speaker(i)] == t.entries + [Speaker(i)];
  }

  lemma SpeakerAgain(t: Table, k: nat)
    requires k < |t.entries| && Index(t.entries, t.entries[k].ssrc) == k
    requires !Collides(t.entries[k].rtp, t.entries[k].rtcp, From(t.entries[k].ssrc))
    ensures
      var e := t.entries[k];
      var u := AfterRtp(t, PacketOf(e.ssrc, 2, 3.0), From(e.ssrc));
      u.entries == t.entries[k := Heard(e)] && u.probation == t.probation
  {
    hide Index, WithRtp, IsActive, Collides;
  }

  lemma OpenDoors(i: nat)
    requires i < 25
    ensures !Collides(QUIET.rtp, QUIET.rtcp, From(1))
    ensures Speaker(i).rtp == Reported(Speaker(i)).rtp == Set(From(100 + i))
    ensures Speaker(i).ssrc == Reported(Speaker(i)).ssrc == 100 + i
  {
    hide PacketQueue.Enqueue, Process;
  }

  lemma WeAreThere(t: Table)
    requires t == Empty(NoProbation)
    ensures OwnCreated(t, 99).entries == [OWN] && OwnCreated(t, 99).probation == NoProbation
  {
    hide OwnEntry;
    assert [] + [OwnEntry(99, NoProbation)] == [OWN];
  }

  lemma OneIsHeard(t: Table)
    requires t.entries == [OWN] && t.probation == NoProbation
    ensures ItemsReady(t.entries) && AfterRtcp(t, 1, Alive(0.0), From(1)).entries == [OWN, QUIET]
    ensures AfterRtcp(t, 1, Alive(0.0), From(1)).probation == NoProbation
  {
    assert [OWN][1..] == [];
    assert Index(t.entries, 1) == 1;
    assert [OWN, NewEntry(1, NoProbation)][1 := QUIET] == [OWN, QUIET];
    assert t.entries + [NewEntry(1, NoProbation)] == [OWN, NewEntry(1, NoProbation)];
  }

  /** The world after a run, as far as the packets look at it. */
  ghost predicate Leaves(turns: seq<Turn>, clock: Time, es: seq<Entry>, l: Last) {
    && TurnsOk(turns, 0.0) && ClockAfterAll(turns, 0.0) == clock
    && var w := Reached(NoProbation, turns, 0.0);
       w.table.entries == es && w.table.probation == NoProbation && w.last == l
  }

  lemma NothingYet()
    ensures Leaves([], 0.0, [], FIRST) && Reached(NoProbation, [], 0.0).table == Empty(NoProbation)
  {
  }

  /** One more event of a run. */
  lemma OneMore(turns: seq<Turn>, ev: Event, clock: Time, es: seq<Entry>, l: Last, fs: seq<Entry>)
    requires Leaves(turns, clock, es, l) && TurnReadable(Came(ev)) && OnTime(Came(ev), clock)
    requires
      var t := Reached(NoProbation, turns, 0.0).table;
      ItemsReady(t.entries) && Step(t, ev).entries == fs && Step(t, ev).probation == NoProbation
    ensures Leaves(turns + [Came(ev)], ClockAfter(Came(ev), clock), fs, l)
  {
    hide Reached, Step, TableOk, TurnsOk;
    ReachedNext(NoProbation, turns, Came(ev), 0.0);
  }

  lemma ReadyTable(turns: seq<Turn>)
    requires TurnsOk(turns, 0.0)
    ensures ItemsReady(Reached(NoProbation, turns, 0.0).table.entries)
    ensures SsrcsDistinct(Reached(NoProbation, turns, 0.0).table.entries)
  {
    hide Reached;
  }

  lemma Started()
    ensures Leaves(Opening(0), 0.0, Before()[..2], FIRST)
  {
    hide Leaves, Reached, OwnCreated, AfterRtcp, OwnEntry, NewEntry;
    var a, b := OwnSsrcCreated(99), RtcpCame(1, Alive(0.0), From(1));
    NothingYet();
    WeAreThere(Empty(NoProbation));
    OneMore([], a, 0.0, [], FIRST, [OWN]);
    assert [] + [Came(a)] == [Came(a)];
    LeavesMeans([Came(a)], 0.0, [OWN], FIRST);
    OneIsHeard(Reached(NoProbation, [Came(a)], 0.0).table);
    OneMore([Came(a)], b, 0.0, [OWN], FIRST, [OWN, QUIET]);
    assert [Came(a)] + [Came(b)] == Opening(0);
    assert Before()[..2] == [OWN, QUIET];
  }

  lemma LeavesMeans(turns: seq<Turn>, clock: Time, es: seq<Entry>, l: Last)
    requires Leaves(turns, clock, es, l)
    ensures TurnsOk(turns, 0.0) && ClockAfterAll(turns, 0.0) == clock
    ensures
      var w := Reached(NoProbation, turns, 0.0);
      w.table.entries == es && w.table.probation == NoProbation && w.last == l && ItemsReady(es) && SsrcsDistinct(es)
  {
    ReadyTable(turns);
  }

  lemma {:induction false} Opened(n: nat)
    requires n <= 25
    ensures Leaves(Opening(n), if n == 0 then 0.0 else 1.0, Before()[..n + 2], FIRST)
  {
    hide Leaves, Reached, AfterRtp, WithRtp, OwnEntry, NewEntry;
    if n == 0 {
      Started();
    } else {
      Opened(n - 1);
      var clock := if n == 1 then 0.0 else 1.0;
      LeavesMeans(Opening(n - 1), clock, Before()[..n + 1], FIRST);
      var t := Reached(NoProbation, Opening(n - 1), 0.0).table;
      NotYetThere(n - 1);
      SpeakerComes(t, n - 1);
      assert Before()[..n + 2] == Before()[..n + 1] + [Speaker(n - 1)];
      var ev := RtpCame(PacketOf(99 + n, 1, 1.0), From(99 + n));
      OneMore(Opening(n - 1), ev, clock, Before()[..n + 1], FIRST, Before()[..n + 2]);
      assert Opening(n) == Opening(n - 1) + [Speaks(n + 1, 1, 1.0)];
    }
  }

  lemma NotYetThere(i: nat)
    requires i < 25
    ensures Index(Before()[..i + 2], 100 + i) == i + 2
  {
    hide Speaker;
    var es := Before()[..i + 2];
    forall k | 0 <= k < |es|
      ensures es[k].ssrc != 100 + i
    {
      Identifiers();
      if k >= 2 {
        OpenDoors(k - 2);
      }
    }
  }

  /** The packet is built: 24 sources are flagged. */
  lemma BuiltFirst(es: seq<Entry>)
    requires Leaves(Opening(25), 1.0, es, FIRST)
    ensures Leaves(Going(0), 2.0, Marked(FIRST, es, 24), SECOND)
  {
    hide Reached, TurnsOk, Marked, TableOk, Opening;
    LeavesMeans(Opening(25), 1.0, es, FIRST);
    ReachedNext(NoProbation, Opening(25), Built(2.0, 24, false, 0), 0.0);
    BuiltKeeps(Reached(NoProbation, Opening(25), 0.0));
    assert Going(0) == Opening(25) + [Built(2.0, 24, false, 0)];
  }

  lemma BuiltKeeps(w: World)
    requires WorldOk(w)
    ensures
      var v := Turned(w, Built(2.0, 24, false, 0));
      && v.table.entries == Marked(w.last, w.table.entries, 24) && v.table.probation == w.table.probation
      && v.last == SECOND
  {
    hide Marked, TableOk;
  }

  /** The source at place `k`, which may send from its address. */
  ghost predicate Open(es: seq<Entry>, k: nat)
    requires k < |es| == 27
  {
    es[k].ssrc == Source(k) && !Collides(es[k].rtp, es[k].rtcp, From(Source(k)))
  }

  lemma {:induction false} Went(n: nat, es: seq<Entry>)
    requires n <= 26 && |es| == 27 && Leaves(Going(0), 2.0, es, SECOND) && forall k | 1 <= k < 27 :: Open(es, k)
    ensures Leaves(Going(n), if n == 0 then 2.0 else 3.0, SomeSpeak(es, n), SECOND)
  {
    hide Leaves, Going, Heard, Open;
    if n == 0 {
      assert SomeSpeak(es, 0) == es;
    } else {
      Went(n - 1, es);
      WentOn(n, es, if n == 1 then 2.0 else 3.0);
    }
  }

  lemma WentOn(n: nat, es: seq<Entry>, clock: Time)
    requires 1 <= n <= 26 && clock <= 3.0 && |es| == 27 && Open(es, n)
    requires Leaves(Going(n - 1), clock, SomeSpeak(es, n - 1), SECOND)
    ensures Leaves(Going(n), 3.0, SomeSpeak(es, n), SECOND)
  {
    hide Leaves, Reached, AfterRtp, Heard, SomeSpeak, Going, Source, From, Index, Collides, TurnsOk, ClockAfterAll;
    var fs := SomeSpeak(es, n - 1);
    LeavesMeans(Going(n - 1), clock, fs, SECOND);
    var t := Reached(NoProbation, Going(n - 1), 0.0).table;
    OneMoreSpeaks(es, n);
    IndexAt(fs, n);
    SpeakerAgain(t, n);
    OneMore(Going(n - 1), RtpCame(PacketOf(Source(n), 2, 3.0), From(Source(n))), clock, fs, SECOND, SomeSpeak(es, n));
    GoingOn(n);
  }

  lemma OneMoreSpeaks(es: seq<Entry>, n: nat)
    requires |es| == 27 && 1 <= n <= 26
    ensures SomeSpeak(es, n - 1)[n] == es[n] && SomeSpeak(es, n) == SomeSpeak(es, n - 1)[n := Heard(es[n])]
  {
    hide Heard, SomeSpeak;
  }

  lemma GoingOn(n: nat)
    requires 1 <= n <= 26
    ensures Going(n) == Going(n - 1) + [Speaks(n, 2, 3.0)]
  {
    hide Opening;
  }

  lemma StillOpen(n: nat)
    requires 1 <= n <= 26
    ensures Open(Marked(FIRST, Before(), 24), n)
  {
    hide Speaker, PendingOf, Eligible, Reported;
    Identifiers();
    OpenDoors(if n >= 2 then n - 2 else 0);
    SameReported(QUIET);
  }

  lemma SameReported(e: Entry)
    ensures Reported(e).ssrc == e.ssrc && Reported(e).rtp == e.rtp && Reported(e).rtcp == e.rtcp
  {
  }

  /** Where the run gets to: before the first packet, after it, and before the second one. */
  lemma GetsThere()
    ensures Leaves(Opening(25), 1.0, Before(), FIRST)
    ensures Leaves(Going(0), 2.0, Marked(FIRST, Before(), 24), SECOND)
    ensures Leaves(Going(26), 3.0, Between(), SECOND)
  {
    hide Leaves, Marked, Before, Going, Opening, Open, SomeSpeak;
    Opened(25);
    assert Before()[..27] == Before();
    BuiltFirst(Before());
    forall k | 1 <= k < 27
      ensures Open(Marked(FIRST, Before(), 24), k)
    {
      StillOpen(k);
    }
    Went(26, Marked(FIRST, Before(), 24));
  }

  // ---------------------------------------------------------------- the packets

  /** A packet with our report without sender information, an empty CNAME and the blocks `bs`. */
  function Plain(bs: seq<ReportBlock>): Content {
    OwnStart(99, None, []).(blocks := bs)
  }

  lemma PlainSize(bs: seq<ReportBlock>)
    ensures ContentOk(Plain(bs)) && Plain(bs).blocks == bs
    ensures Needed(true, Plain(bs)) == ReportNeeded(false, |bs|) + 12
    ensures NeededWithBlock(Plain(bs)) == ReportNeeded(false, |bs| + 1) + 12
  {
    var c := Plain(bs);
    assert ChunkOk(c.chunks[0]);
    OneChunkSize(c.chunks[0]);
    assert [Item.Item(CNAME, [])][1..] == [];
    assert ItemOffset(c.chunks[0].items, 1) == 2;
    assert TotalSize([]) == 0;
  }

  /** A packet of 600 bytes with the blocks `bs`, built from the entries `es`, leaves the entries `fs`. */
  ghost predicate IsPacket(bs: seq<ReportBlock>, l: Last, es: seq<Entry>, fs: seq<Entry>, first: nat, second: nat) {
    && ContentOk(Plain(bs)) && Needed(true, Plain(bs)) <= 600
    && Covers(Plain(bs), 600, l, es, fs, first, second, false, false)
  }

  /** The same where a run gets to. */
  ghost predicate CanBeBuilt(turns: seq<Turn>, bs: seq<ReportBlock>, fs: seq<Entry>, first: nat, second: nat) {
    && TurnsOk(turns, 0.0)
    && var w := Reached(NoProbation, turns, 0.0);
       IsPacket(bs, w.last, w.table.entries, fs, first, second)
  }

  /** The entry that block `j` of such a packet reports on has no packets in its interval, and none was
      expected. */
  ghost predicate WithoutNews(turns: seq<Turn>, first: nat, second: nat, j: nat) {
    && TurnsOk(turns, 0.0) && j < first + second
    && var w := Reached(NoProbation, turns, 0.0);
       && first <= |PendingOf(w.last, w.table.entries)|
       && second <= |PendingOf(w.last, SecondStart(w.last, w.table.entries))|
       && var n := ReportedBy(w.last, w.table.entries, first, second, j).stats.nr;
          n.numNewPackets == 0 && Sub32(n.extHighSeqNr, n.savedExtSeqNr) == 0
  }

  // ---------------------------------------------------------------- there are blocks for every source

  /** A block that says what an entry says. */
  function BlockOf(e: Entry): (b: ReportBlock)
    ensures ReportsOn(b, e)
  {
    var n := e.stats.nr;
    var expected := Sub32(n.extHighSeqNr, n.savedExtSeqNr);
    var fraction: byte :=
      if n.numNewPackets > 0 && (expected < n.numNewPackets || expected != 0) then
        ReceiveRuns.FractionFits(expected, n.numNewPackets);
        ReceiveRuns.FractionLost(expected, n.numNewPackets)
      else 0;
    var lost := Sub32(Sub32(n.extHighSeqNr, n.baseSeqNr), n.packetsReceived);
    var jitter := e.stats.timing.dJitter.Floor % 0x1_0000_0000;
    ReportBlock(e.ssrc, fraction, Signed32(lost), n.extHighSeqNr, jitter, 0, 0)
  }

  function BlocksOf(es: seq<Entry>): (bs: seq<ReportBlock>)
    ensures ReportsOnAll(bs, es)
  {
    seq(|es|, i requires 0 <= i < |es| => BlockOf(es[i]))
  }

  lemma SomeBlocks(l: Last, es: seq<Entry>, first: nat, second: nat) returns (bs: seq<ReportBlock>)
    requires first <= |PendingOf(l, es)| && second <= |PendingOf(l, SecondStart(l, es))|
    ensures |bs| == first + second && TwoPasses(bs, l, es, first, second)
  {
    hide ReportsOn, PendingOf, SecondStart;
    var a, b := BlocksOf(PendingOf(l, es)[..first]), BlocksOf(PendingOf(l, SecondStart(l, es))[..second]);
    bs := a + b;
    assert bs[..first] == a && bs[first..] == b;
  }

  /** A packet that covers 24 of 25 pending sources. */
  lemma APacket(es: seq<Entry>) returns (bs: seq<ReportBlock>)
    requires |PendingOf(FIRST, es)| == 25
    ensures IsPacket(bs, FIRST, es, Marked(FIRST, es, 24), 24, 0)
  {
    hide Marked, SecondStart, PendingOf, EligibleOf, FlaggedCount, Needed, NeededWithBlock, ReportsOnAll, ContentOk,
      Plain;
    bs := SomeBlocks(FIRST, es, 24, 0);
    PlainSize(bs);
  }

  /** And one that covers two sources, and 22 that were covered before. */
  lemma AnotherPacket(es: seq<Entry>) returns (bs: seq<ReportBlock>)
    requires SecondTable(es)
    ensures IsPacket(bs, SECOND, es, Marked(SECOND, SecondStart(SECOND, es), 22), 2, 22)
  {
    hide Marked, SecondStart, PendingOf, EligibleOf, FlaggedCount, Needed, NeededWithBlock, ReportsOnAll, ContentOk,
      Plain;
    SecondPassPending(SECOND, es);
    bs := SomeBlocks(SECOND, es, 2, 22);
    PlainSize(bs);
  }

  // ---------------------------------------------------------------- what packets cover there

  /** A packet with two blocks for source 1. */
  ghost predicate Twice(bs: seq<ReportBlock>) {
    |bs| == 24 && bs[0].ssrc == bs[2].ssrc == 1 && !DifferentSources(bs)
  }

  /** 24 blocks fill a packet of 600 bytes: of 25 pending sources one is left. */
  lemma FirstPacket(bs: seq<ReportBlock>, es: seq<Entry>, fs: seq<Entry>, first: nat, second: nat)
    requires |PendingOf(FIRST, es)| == 25 && IsPacket(bs, FIRST, es, fs, first, second)
    ensures first == 24 && second == 0 && fs == Marked(FIRST, es, 24)
  {
    hide Marked, SecondStart, PendingOf, EligibleOf, FlaggedCount, Needed, NeededWithBlock, ReportsOnAll, ContentOk,
      Plain;
    PlainSize(bs);
  }

  lemma SecondPacket(bs: seq<ReportBlock>, es: seq<Entry>, fs: seq<Entry>, first: nat, second: nat)
    requires SecondTable(es) && IsPacket(bs, SECOND, es, fs, first, second)
    ensures first == 2 && second == 22 && TwoPasses(bs, SECOND, es, 2, 22) && |PendingOf(SECOND, es)| == 2 && Twice(bs)
  {
    hide Marked, SecondStart, PendingOf, EligibleOf, FlaggedCount, Needed, NeededWithBlock, ReportsOnAll, ContentOk,
      Plain, DifferentSources;
    PlainSize(bs);
    SecondPassPending(SECOND, es);
    TwoPassesSizes(bs, SECOND, es, first, second);
    SameSource(bs, es, second);
  }

  lemma SameSource(bs: seq<ReportBlock>, es: seq<Entry>, second: nat)
    requires TwoPasses(bs, SECOND, es, 2, second) && second > 0
    requires PendingOf(SECOND, es) != [] && PendingOf(SECOND, es)[0].ssrc == 1
    requires PendingOf(SECOND, SecondStart(SECOND, es)) != [] && PendingOf(SECOND, SecondStart(SECOND, es))[0].ssrc == 1
    ensures |bs| > 2 && bs[0].ssrc == bs[2].ssrc == 1 && !DifferentSources(bs)
  {
    hide PendingOf, SecondStart;
    assert bs[..2][0] == bs[0] && bs[2..][0] == bs[2];
  }

  // ---------------------------------------------------------------- the two packets

  /** Whatever packets of 600 bytes are built when the run gets there: the first covers 24 of the 25
      speakers. Once the late speaker and all others have sent, the second covers the two that are
      pending, starts over, and takes the late speaker a second time, with nothing to report. */
  lemma AnyPacketsReportTwice(bs: seq<ReportBlock>, fs: seq<Entry>, first: nat, second: nat)
    ensures CanBeBuilt(Opening(25), bs, fs, first, second) ==> first == 24 && second == 0
    ensures
      CanBeBuilt(Going(26), bs, fs, first, second) ==>
        first == 2 && second == 22 && Twice(bs) && WithoutNews(Going(26), 2, 22, 2)
  {
    hide Before, Between, Marked, IsPacket, Going, Opening, Leaves, CanBeBuilt, DifferentSources, SecondTable,
      PendingOf, TwoPasses, Shaped, WithoutNews;
    GetsThere();
    FirstPass();
    BetweenShaped();
    SecondPass(Between());
    if CanBeBuilt(Opening(25), bs, fs, first, second) {
      BuiltThere(Opening(25), bs, fs, first, second, 1.0, Before(), FIRST);
      FirstPacket(bs, Before(), fs, first, second);
    }
    if CanBeBuilt(Going(26), bs, fs, first, second) {
      BuiltThere(Going(26), bs, fs, first, second, 3.0, Between(), SECOND);
      SecondPacket(bs, Between(), fs, first, second);
      GoingLength();
      SecondWithoutNews(Going(26), 3.0, Between(), bs);
    }
  }

  lemma BuiltThere(turns: seq<Turn>, bs: seq<ReportBlock>, fs: seq<Entry>, first: nat, second: nat, clock: Time,
      es: seq<Entry>, l: Last)
    requires Leaves(turns, clock, es, l)
    ensures CanBeBuilt(turns, bs, fs, first, second) <==> IsPacket(bs, l, es, fs, first, second)
  {
    hide IsPacket, Reached, TurnsOk, ClockAfterAll;
  }

  lemma SecondWithoutNews(turns: seq<Turn>, clock: Time, es: seq<Entry>, bs: seq<ReportBlock>)
    requires Leaves(turns, clock, es, SECOND) && |turns| < 0x1_0000_0000
    requires |PendingOf(SECOND, es)| == 2 && TwoPasses(bs, SECOND, es, 2, 22)
    requires Twice(bs)
    ensures WithoutNews(turns, 2, 22, 2)
  {
    hide Reached, TurnsOk, ClockAfterAll, PendingOf, SecondStart, TwoPasses, ReportedBy;
    TwoPassesSizes(bs, SECOND, es, 2, 22);
    BlocksHaveNews(NoProbation, turns, 0.0, bs, 2, 22, 2);
    assert !IsFirst(bs, 2);
  }

  lemma GoingLength()
    ensures |Going(26)| < 0x1_0000_0000
  {
    hide Speaks;
  }

  /** From an empty table, by packets that come in and one that is built, the program gets to where its
      next packet reports one source twice; the second time there is nothing to report. Both packets
      exist, and the first leaves the table with which the run goes on. */
  lemma ReportedTwice()
    ensures TurnsOk(Going(0), 0.0)
    ensures exists bs :: CanBeBuilt(Opening(25), bs, Reached(NoProbation, Going(0), 0.0).table.entries, 24, 0)
    ensures exists bs, fs :: CanBeBuilt(Going(26), bs, fs, 2, 22) && Twice(bs) && WithoutNews(Going(26), 2, 22, 2)
  {
    hide Before, Between, Marked, SecondStart, IsPacket, Going, Opening, Leaves, Reached, TurnsOk, ClockAfterAll,
      CanBeBuilt, DifferentSources, SecondTable, PendingOf, Shaped, WithoutNews;
    GetsThere();
    FirstPass();
    BetweenShaped();
    SecondPass(Between());
    LeavesMeans(Going(0), 2.0, Marked(FIRST, Before(), 24), SECOND);
    var bs := APacket(Before());
    BuiltThere(Opening(25), bs, Marked(FIRST, Before(), 24), 24, 0, 1.0, Before(), FIRST);
    var bs2 := AnotherPacket(Between());
    var fs2 := Marked(SECOND, SecondStart(SECOND, Between()), 22);
    BuiltThere(Going(26), bs2, fs2, 2, 22, 3.0, Between(), SECOND);
    AnyPacketsReportTwice(bs2, fs2, 2, 22);
  }
}
