/** Whole runs of packets that come in and packets that are built: what a report block has to tell. */
module ReportRuns {
  import opened Bytes
  import opened PacketQueue
  import opened ReportMarks
  import opened ReportPass
  import opened RtcpPackets
  import opened SourceStats
  import opened SourceData
  import opened SourceTable
  import opened SourceRuns

  /** The source table, and what the packet builder remembers. */
  datatype World = World(table: Table, last: Last)

  /** Something happens to the table, or a packet is built: a pass that reports `first` sources, and
      unless some are left, flags cleared and `second` sources more. */
  datatype Turn = Came(event: Event) | Built(now: Time, first: nat, again: bool, second: nat)

  predicate TurnReadable(turn: Turn) {
    turn.Came? ==> EventReadable(turn.event) && !turn.event.ReportsMade? && !turn.event.FlagsCleared?
  }

  ghost predicate WorldOk(w: World) {
    TableOk(w.table) && ItemsReady(w.table.entries)
  }

  /** The table after a packet was built. */
  ghost function AfterBuilt(t: Table, l: Last, first: nat, again: bool, second: nat): (u: Table)
    requires TableOk(t) && ItemsReady(t.entries)
    ensures TableOk(u) && ItemsReady(u.entries)
    ensures u.entries == if again then Marked(l, SecondStart(l, t.entries), second) else Marked(l, t.entries, first)
  {
    hide TableOk, Marked, Cleared;
    var all := if again then |PendingOf(l, t.entries)| else first;
    StepOk(t, ReportsMade(l, all));
    var t1 := Step(t, ReportsMade(l, all));
    if again then
      StepOk(t1, FlagsCleared);
      var t2 := Step(t1, FlagsCleared);
      StepOk(t2, ReportsMade(l, second));
      Step(t2, ReportsMade(l, second))
    else t1
  }

  ghost function Turned(w: World, turn: Turn): (v: World)
    requires WorldOk(w) && TurnReadable(turn)
    ensures WorldOk(v)
  {
    match turn
    case Came(ev) => StepOk(w.table, ev); World(Step(w.table, ev), w.last)
    case Built(now, first, again, second) =>
      World(AfterBuilt(w.table, w.last, first, again, second), Last(false, now))
  }

  /** The clock never runs back. */
  predicate OnTime(turn: Turn, clock: Time) {
    match turn
    case Came(ev) => ev.RtpCame? ==> clock <= ev.packet.arrival.time
    case Built(now, _, _, _) => clock <= now
  }

  function ClockAfter(turn: Turn, clock: Time): Time {
    match turn
    case Came(ev) => if ev.RtpCame? then ev.packet.arrival.time else clock
    case Built(now, _, _, _) => now
  }

  ghost predicate TurnsOk(turns: seq<Turn>, clock: Time)
    decreases |turns|
  {
    turns != [] ==>
      TurnReadable(turns[0]) && OnTime(turns[0], clock) && TurnsOk(turns[1..], ClockAfter(turns[0], clock))
  }

  ghost function TurnedAll(w: World, turns: seq<Turn>, clock: Time): (v: World)
    requires WorldOk(w) && TurnsOk(turns, clock)
    ensures WorldOk(v)
    decreases |turns|
  {
    if turns == [] then w else TurnedAll(Turned(w, turns[0]), turns[1..], ClockAfter(turns[0], clock))
  }

  function ClockAfterAll(turns: seq<Turn>, clock: Time): Time
    decreases |turns|
  {
    if turns == [] then clock else ClockAfterAll(turns[1..], ClockAfter(turns[0], clock))
  }

  lemma {:induction false} TurnAppended(w: World, turns: seq<Turn>, turn: Turn, clock: Time)
    requires WorldOk(w) && TurnsOk(turns, clock) && TurnReadable(turn) && OnTime(turn, ClockAfterAll(turns, clock))
    ensures TurnsOk(turns + [turn], clock)
    ensures TurnedAll(w, turns + [turn], clock) == Turned(TurnedAll(w, turns, clock), turn)
    ensures ClockAfterAll(turns + [turn], clock) == ClockAfter(turn, ClockAfterAll(turns, clock))
    decreases |turns|
  {
    hide WorldOk, Turned, TurnReadable, OnTime, ClockAfter;
    if turns == [] {
      assert [turn][1..] == [];
    } else {
      assert (turns + [turn])[1..] == turns[1..] + [turn];
      TurnAppended(Turned(w, turns[0]), turns[1..], turn, ClockAfter(turns[0], clock));
    }
  }

  // ---------------------------------------------------------------- one entry

  /** A source that sent something since the last packet has packets in its interval; at most `count`
      came in all. */
  predicate HasNews(e: Entry, l: Last, clock: Time, count: nat) {
    e.own ||
      var n, heard := e.stats.nr, e.stats.timing.lastRtpTime;
      && n.numNewPackets <= count && (n.sentData ==> heard <= clock)
      && (n.sentData && (l.firstPacket || heard > l.prevBuildTime) ==> n.numNewPackets > 0)
  }

  ghost predicate AllNews(es: seq<Entry>, l: Last, clock: Time, count: nat) {
    forall i | 0 <= i < |es| :: HasNews(es[i], l, clock, count)
  }

  /** Entries with the same packet counts and the same last packet, as far as reports look at them. */
  predicate SameNews(e: Entry, f: Entry) {
    f.own == e.own && f.stats.nr == e.stats.nr && (e.own || f.stats.timing.lastRtpTime == e.stats.timing.lastRtpTime)
  }

  lemma NewsKept(e: Entry, f: Entry, l: Last, clock: Time, count: nat, later: Time)
    requires HasNews(e, l, clock, count) && SameNews(e, f) && clock <= later
    ensures HasNews(f, l, later, count) && HasNews(f, l, later, count + 1)
  {
  }

  lemma PacketIsNews(e: Entry, p: Incoming, from: Sender, l: Last, clock: Time, count: nat)
    requires HasNews(e, l, clock, count) && clock <= p.arrival.time && count + 1 < 0x1_0000_0000
    ensures HasNews(WithRtp(e, p, from), l, p.arrival.time, count + 1)
  {
    hide Enqueue, CyclesFor, Advances, Extend, JitterAfter;
  }

  lemma NewEntryNews(ssrc: uint32, probation: ProbationType, l: Last, clock: Time, count: nat)
    ensures HasNews(NewEntry(ssrc, probation), l, clock, count) && HasNews(OwnEntry(ssrc, probation), l, clock, count)
    ensures HasNews(AsCsrc(NewEntry(ssrc, probation)), l, clock, count)
  {
  }

  // ---------------------------------------------------------------- one turn

  lemma NewsLater(es: seq<Entry>, l: Last, clock: Time, count: nat, later: Time)
    requires AllNews(es, l, clock, count) && clock <= later
    ensures AllNews(es, l, later, count + 1)
  {
    hide HasNews;
    forall i | 0 <= i < |es|
      ensures HasNews(es[i], l, later, count + 1)
    {
      NewsKept(es[i], es[i], l, clock, count, later);
    }
  }

  lemma ObtainedNews(t: Table, ssrc: uint32, l: Last, clock: Time, count: nat)
    requires AllNews(t.entries, l, clock, count)
    ensures AllNews(Obtained(t, ssrc).entries, l, clock, count)
  {
    hide HasNews, NewEntry;
    NewEntryNews(ssrc, t.probation, l, clock, count);
  }

  lemma CsrcNews(t: Table, csrc: uint32, from: Sender, l: Last, clock: Time, count: nat)
    requires AllNews(t.entries, l, clock, count)
    ensures AllNews(WithCsrc(t, csrc, from).entries, l, clock, count)
  {
    hide HasNews, NewEntry, Collides;
    NewEntryNews(csrc, t.probation, l, clock, count);
    var i := Index(t.entries, csrc);
    if i < |t.entries| {
      NewsSame(t.entries[i], AsCsrc(Addressed(t.entries[i], from, true)), l, clock, count);
    }
  }

  lemma NewsSame(e: Entry, f: Entry, l: Last, clock: Time, count: nat)
    requires HasNews(e, l, clock, count) && SameNews(e, f)
    ensures HasNews(f, l, clock, count)
  {
  }

  lemma {:induction false} CsrcsNews(t: Table, csrcs: seq<uint32>, from: Sender, l: Last, clock: Time, count: nat)
    requires AllNews(t.entries, l, clock, count)
    ensures AllNews(WithCsrcs(t, csrcs, from).entries, l, clock, count)
  {
    hide AllNews, WithCsrc;
    if csrcs != [] {
      CsrcsNews(t, csrcs[..|csrcs| - 1], from, l, clock, count);
      CsrcNews(WithCsrcs(t, csrcs[..|csrcs| - 1], from), csrcs[|csrcs| - 1], from, l, clock, count);
    }
  }

  lemma RtpNews(t: Table, p: Incoming, from: Sender, l: Last, clock: Time, count: nat)
    requires AllNews(t.entries, l, clock, count) && clock <= p.arrival.time && count + 1 < 0x1_0000_0000
    ensures AllNews(AfterRtp(t, p, from).entries, l, p.arrival.time, count + 1)
  {
    hide HasNews, Collides, WithRtp, WithCsrcs, Index, Obtained;
    var i, u := Index(t.entries, p.ssrc), Obtained(t, p.ssrc);
    NewsLater(t.entries, l, clock, count, p.arrival.time);
    ObtainedNews(t, p.ssrc, l, clock, count);
    ObtainedHas(t, p.ssrc);
    NewsLater(u.entries, l, clock, count, p.arrival.time);
    var f := WithRtp(u.entries[i], p, from);
    PacketIsNews(u.entries[i], p, from, l, clock, count);
    CsrcsNews(Changed(u, i, f), p.csrcs, from, l, p.arrival.time, count + 1);
  }

  lemma ObtainedHas(t: Table, ssrc: uint32)
    ensures Index(t.entries, ssrc) < |Obtained(t, ssrc).entries|
  {
  }

  lemma MessageNews(e: Entry, m: Message, from: Sender)
    requires Readable(m) && |e.items| == NUMITEMS
    ensures SameNews(e, WithMessage(Addressed(e, from, false), m))
  {
  }

  lemma RtcpNews(t: Table, ssrc: uint32, m: Message, from: Sender, l: Last, clock: Time, count: nat)
    requires TableOk(t) && ItemsReady(t.entries) && Readable(m) && AllNews(t.entries, l, clock, count)
    ensures AllNews(AfterRtcp(t, ssrc, m, from).entries, l, clock, count)
  {
    hide HasNews, Collides, WithMessage, Index, Obtained, TableOk, Addressed;
    var i, u := Index(t.entries, ssrc), Obtained(t, ssrc);
    ObtainedNews(t, ssrc, l, clock, count);
    ObtainedEntry(t, ssrc);
    MessageNews(u.entries[i], m, from);
    NewsSame(u.entries[i], WithMessage(AddressedReady(u.entries[i], from), m), l, clock, count);
  }

  function AddressedReady(e: Entry, from: Sender): (f: Entry)
    ensures f == Addressed(e, from, false) && f.items == e.items
  {
    Addressed(e, from, false)
  }

  lemma OwnNews(t: Table, ssrc: uint32, now: Time, l: Last, clock: Time, count: nat)
    requires AllNews(t.entries, l, clock, count)
    ensures AllNews(OwnCreated(t, ssrc).entries, l, clock, count)
    ensures AllNews(OwnSent(t, now).entries, l, clock, count)
    ensures AllNews(OwnDeleted(t).entries, l, clock, count)
  {
    NewEntryNews(ssrc, t.probation, l, clock, count);
    var i := OwnIndex(t.entries);
    if i < |t.entries| {
      NewsSame(t.entries[i], Sent(t.entries[i], now), l, clock, count);
    }
    hide HasNews, Sent, OwnEntry, Index, OwnIndex;
  }

  lemma TakenNews(t: Table, ssrc: uint32, l: Last, clock: Time, count: nat)
    requires AllNews(t.entries, l, clock, count)
    ensures AllNews(Taken(t, ssrc).entries, l, clock, count)
  {
    hide HasNews;
    var i := Index(t.entries, ssrc);
    if i < |t.entries| && t.entries[i].queue != [] {
      NewsSame(t.entries[i], t.entries[i].(queue := t.entries[i].queue[1..]), l, clock, count);
    }
  }

  lemma AfterNews(p: Pass, e: Entry)
    requires |e.items| == NUMITEMS && After(p, e).Some?
    ensures SameNews(e, After(p, e).value)
  {
  }

  lemma {:induction false} SurvivorsNews(p: Pass, es: seq<Entry>, l: Last, clock: Time, count: nat)
    requires ItemsReady(es) && AllNews(es, l, clock, count)
    ensures AllNews(Survivors(p, es), l, clock, count)
  {
    hide HasNews, After, SameNews;
    if es != [] {
      var init, e := es[..|es| - 1], es[|es| - 1];
      SurvivorsNews(p, init, l, clock, count);
      if After(p, e).Some? {
        AfterNews(p, e);
        NewsSame(e, After(p, e).value, l, clock, count);
      }
    }
  }

  lemma CameNews(t: Table, ev: Event, l: Last, clock: Time, count: nat)
    requires TableOk(t) && ItemsReady(t.entries) && TurnReadable(Came(ev)) && OnTime(Came(ev), clock)
    requires AllNews(t.entries, l, clock, count) && count + 1 < 0x1_0000_0000
    ensures AllNews(Step(t, ev).entries, l, ClockAfter(Came(ev), clock), count + 1)
  {
    hide TableOk, AllNews, AfterRtp, AfterRtcp, OwnCreated, OwnSent, OwnDeleted, Taken, Survivors, ItemsReady;
    if ev.RtpCame? {
      RtpNews(t, ev.packet, ev.rtpFrom, l, clock, count);
    } else {
      match ev {
        case RtcpCame(ssrc, m, from) => RtcpNews(t, ssrc, m, from, l, clock, count);
        case OwnSsrcCreated(ssrc) => OwnNews(t, ssrc, 0.0, l, clock, count);
        case OwnSsrcDeleted => OwnNews(t, 0, 0.0, l, clock, count);
        case OwnPacketSent(now) => OwnNews(t, 0, now, l, clock, count);
        case PacketTaken(ssrc) => TakenNews(t, ssrc, l, clock, count);
        case PassMade(p) => SurvivorsNews(p, t.entries, l, clock, count);
        case TableCleared => NoneNews(l, clock, count);
        case _ =>
      }
      NewsLater(Step(t, ev).entries, l, clock, count, clock);
    }
  }

  lemma NoneNews(l: Last, clock: Time, count: nat)
    ensures AllNews([], l, clock, count)
  {
  }

  /** After a packet nothing counts as news any more. */
  lemma BuiltNews(t: Table, l: Last, clock: Time, count: nat, now: Time, first: nat, again: bool, second: nat)
    requires TableOk(t) && ItemsReady(t.entries) && AllNews(t.entries, l, clock, count) && clock <= now
    ensures AllNews(AfterBuilt(t, l, first, again, second).entries, Last(false, now), now, count + 1)
  {
    hide TableOk, PendingOf, Pending;
    var es, fs := t.entries, AfterBuilt(t, l, first, again, second).entries;
    forall i | 0 <= i < |es|
      ensures HasNews(fs[i], Last(false, now), now, count + 1)
    {
      assert HasNews(es[i], l, clock, count);
    }
  }

  lemma TurnNews(w: World, turn: Turn, clock: Time, count: nat)
    requires WorldOk(w) && TurnReadable(turn) && OnTime(turn, clock)
    requires AllNews(w.table.entries, w.last, clock, count) && count + 1 < 0x1_0000_0000
    ensures AllNews(Turned(w, turn).table.entries, Turned(w, turn).last, ClockAfter(turn, clock), count + 1)
  {
    hide TableOk, AllNews, ItemsReady, AfterBuilt, Step;
    match turn {
      case Came(ev) => CameNews(w.table, ev, w.last, clock, count);
      case Built(now, first, again, second) => BuiltNews(w.table, w.last, clock, count, now, first, again, second);
    }
  }

  // ---------------------------------------------------------------- whole runs

  lemma {:induction false} TurnsNews(w: World, turns: seq<Turn>, clock: Time, count: nat)
    requires WorldOk(w) && TurnsOk(turns, clock)
    requires AllNews(w.table.entries, w.last, clock, count) && count + |turns| < 0x1_0000_0000
    ensures
      var v := TurnedAll(w, turns, clock);
      AllNews(v.table.entries, v.last, ClockAfterAll(turns, clock), count + |turns|)
    decreases |turns|
  {
    hide WorldOk, AllNews, Turned, OnTime, ClockAfter, TurnReadable;
    if turns != [] {
      TurnNews(w, turns[0], clock, count);
      TurnsNews(Turned(w, turns[0]), turns[1..], ClockAfter(turns[0], clock), count + 1);
    }
  }

  // ---------------------------------------------------------------- the blocks of a packet

  /** The entry that block `j` of a packet reports on, as it was when the block was made. */
  ghost function ReportedBy(l: Last, es: seq<Entry>, first: nat, second: nat, j: nat): Entry
    requires first <= |PendingOf(l, es)| && second <= |PendingOf(l, SecondStart(l, es))| && j < first + second
  {
    if j < first then PendingOf(l, es)[j] else PendingOf(l, SecondStart(l, es))[j - first]
  }

  /** No earlier block is for the source of block `j`. */
  ghost predicate IsFirst(bs: seq<ReportBlock>, j: nat)
    requires j < |bs|
  {
    forall i | 0 <= i < j :: bs[i].ssrc != bs[j].ssrc
  }

  lemma EligibleHasNews(l: Last, es: seq<Entry>, clock: Time, count: nat, i: nat)
    requires AllNews(es, l, clock, count) && i < |es| && Eligible(l, es[i])
    ensures es[i].stats.nr.numNewPackets > 0
  {
  }

  /** Which source a block is for. */
  lemma BlockSource(bs: seq<ReportBlock>, l: Last, es: seq<Entry>, first: nat, second: nat, j: nat)
    requires TwoPasses(bs, l, es, first, second) && j < first + second
    ensures |bs| == first + second && bs[j].ssrc == ReportedBy(l, es, first, second, j).ssrc
    ensures ReportsOn(bs[j], ReportedBy(l, es, first, second, j))
  {
    hide PendingOf, SecondStart, ReportsOn;
    if j < first {
      assert bs[..first][j] == bs[j];
    } else {
      assert bs[first..][j - first] == bs[j];
    }
    SameAsReported(bs[j], ReportedBy(l, es, first, second, j));
  }

  lemma SameAsReported(b: ReportBlock, e: Entry)
    requires ReportsOn(b, e)
    ensures b.ssrc == e.ssrc
  {
  }

  lemma FirstPassNews(l: Last, es: seq<Entry>, clock: Time, count: nat, j: nat)
    requires SsrcsDistinct(es) && AllNews(es, l, clock, count) && j < |PendingOf(l, es)|
    ensures PendingOf(l, es)[j].stats.nr.numNewPackets > 0
    ensures forall i | 0 <= i < j :: PendingOf(l, es)[i].ssrc != PendingOf(l, es)[j].ssrc
  {
    hide PendingOf, Eligible, AllNews;
    var x := PendingOf(l, es)[j];
    PendingOfIn(l, es, x);
    var i :| 0 <= i < |es| && es[i] == x;
    EligibleHasNews(l, es, clock, count, i);
    ListsDistinct(l, es);
  }

  /** A source of the second pass: in the first pass as `PendingOf(l, es)[q]`, or not at all. */
  lemma SecondPassSource(l: Last, es: seq<Entry>, k: nat) returns (i: nat)
    requires SsrcsDistinct(es) && k < |PendingOf(l, SecondStart(l, es))|
    ensures i < |es|
    ensures
      var x := PendingOf(l, SecondStart(l, es))[k];
      && x.ssrc == es[i].ssrc && Eligible(l, es[i])
      && x.stats == (if Pending(l, es[i]) then Reported(es[i]) else es[i]).stats
  {
    hide PendingOf, Eligible;
    var fs := SecondStart(l, es);
    var x := PendingOf(l, fs)[k];
    PendingOfIn(l, fs, x);
    i :| 0 <= i < |fs| && fs[i] == x;
    if Pending(l, es[i]) {
      PendingAt(l, es, i);
      ReportedEligible(l, es[i], Reported(es[i]));
    } else {
      ReportedEligible(l, es[i], es[i]);
    }
  }

  lemma IntervalJustStarted(e: Entry)
    ensures Reported(e).stats.nr.numNewPackets == 0
    ensures Sub32(Reported(e).stats.nr.extHighSeqNr, Reported(e).stats.nr.savedExtSeqNr) == 0
  {
  }

  /** A block of the second pass. */
  lemma SecondPassNews(bs: seq<ReportBlock>, l: Last, es: seq<Entry>, clock: Time, count: nat, second: nat, j: nat)
    requires SsrcsDistinct(es) && AllNews(es, l, clock, count)
    requires var first := |PendingOf(l, es)|; TwoPasses(bs, l, es, first, second) && first <= j < |bs|
    ensures
      var n := ReportedBy(l, es, |PendingOf(l, es)|, second, j).stats.nr;
      && (n.numNewPackets > 0 <==> IsFirst(bs, j))
      && (!IsFirst(bs, j) ==> Sub32(n.extHighSeqNr, n.savedExtSeqNr) == 0)
  {
    hide PendingOf, SecondStart, Eligible, AllNews, TwoPasses, Reported, ReportsOn, SsrcsDistinct;
    var first, all, again := |PendingOf(l, es)|, PendingOf(l, es), PendingOf(l, SecondStart(l, es));
    TwoPassesSizes(bs, l, es, first, second);
    BlockSource(bs, l, es, first, second, j);
    var i := SecondPassSource(l, es, j - first);
    if Pending(l, es[i]) {
      IntervalJustStarted(es[i]);
      PendingAt(l, es, i);
      var q := |PendingOf(l, es[..i])|;
      BlockSource(bs, l, es, first, second, q);
      assert bs[q].ssrc == bs[j].ssrc;
    } else {
      EligibleHasNews(l, es, clock, count, i);
      forall q | 0 <= q < j
        ensures bs[q].ssrc != bs[j].ssrc
      {
        BlockSource(bs, l, es, first, second, q);
        if q < first {
          NotPendingElsewhere(l, es, i, q);
        } else {
          SecondPassDistinct(l, es, q - first, j - first);
        }
      }
    }
  }

  lemma NotPendingElsewhere(l: Last, es: seq<Entry>, i: nat, q: nat)
    requires SsrcsDistinct(es) && i < |es| && !Pending(l, es[i]) && q < |PendingOf(l, es)|
    ensures PendingOf(l, es)[q].ssrc != es[i].ssrc
  {
    hide PendingOf, Eligible;
    var x := PendingOf(l, es)[q];
    assert x in PendingOf(l, es);
    PendingOfIn(l, es, x);
    SameSsrcSameEntry(es, x, es[i]);
  }

  lemma SecondPassDistinct(l: Last, es: seq<Entry>, i: nat, j: nat)
    requires SsrcsDistinct(es) && i < j < |PendingOf(l, SecondStart(l, es))|
    ensures PendingOf(l, SecondStart(l, es))[i].ssrc != PendingOf(l, SecondStart(l, es))[j].ssrc
  {
    hide PendingOf, EligibleOf, SecondStart;
    SecondPassPending(l, es);
    ListsDistinct(l, es);
    SameSsrcsDistinct(EligibleOf(l, es), PendingOf(l, SecondStart(l, es)));
  }

  /** What a run leaves, from an empty table and a packet builder that has built nothing. */
  ghost function Reached(probation: ProbationType, turns: seq<Turn>, clock: Time): (w: World)
    requires TurnsOk(turns, clock)
    ensures WorldOk(w)
  {
    EmptyWorldOk(probation);
    TurnedAll(World(Empty(probation), Last(true, 0.0)), turns, clock)
  }

  lemma ReachedNext(probation: ProbationType, turns: seq<Turn>, turn: Turn, clock: Time)
    requires TurnsOk(turns, clock) && TurnReadable(turn) && OnTime(turn, ClockAfterAll(turns, clock))
    ensures TurnsOk(turns + [turn], clock)
    ensures Reached(probation, turns + [turn], clock) == Turned(Reached(probation, turns, clock), turn)
    ensures ClockAfterAll(turns + [turn], clock) == ClockAfter(turn, ClockAfterAll(turns, clock))
  {
    hide WorldOk, Turned, TurnedAll;
    EmptyWorldOk(probation);
    TurnAppended(World(Empty(probation), Last(true, 0.0)), turns, turn, clock);
  }

  /** In every run of fewer than 2^32 turns: whatever packet is built next, each of its blocks reports on
      an interval in which packets came, exactly if it is the first block for its source in the packet.
      In a further block the interval has just begun, and nothing was expected in it either. */
  lemma BlocksHaveNews(probation: ProbationType, turns: seq<Turn>, clock: Time,
      bs: seq<ReportBlock>, first: nat, second: nat, j: nat)
    requires TurnsOk(turns, clock) && |turns| < 0x1_0000_0000 && j < |bs|
    requires
      var w := Reached(probation, turns, clock);
      TwoPasses(bs, w.last, w.table.entries, first, second)
      && (second > 0 ==> first == |PendingOf(w.last, w.table.entries)|)
    ensures
      var w := Reached(probation, turns, clock);
      var n := ReportedBy(w.last, w.table.entries, first, second, j).stats.nr;
      && (n.numNewPackets > 0 <==> IsFirst(bs, j))
      && (!IsFirst(bs, j) ==> Sub32(n.extHighSeqNr, n.savedExtSeqNr) == 0)
  {
    hide Reached, TableOk, AllNews, PendingOf, SecondStart, TwoPasses, ReportsOn, Reported;
    var w, now := Reached(probation, turns, clock), ClockAfterAll(turns, clock);
    var l, es := w.last, w.table.entries;
    ReachedNews(probation, turns, clock);
    DistinctSources(w.table);
    TwoPassesSizes(bs, l, es, first, second);
    BlockSource(bs, l, es, first, second, j);
    if j < first {
      FirstPassNews(l, es, now, |turns|, j);
      forall i | 0 <= i < j
        ensures bs[i].ssrc != bs[j].ssrc
      {
        BlockSource(bs, l, es, first, second, i);
      }
    } else {
      SecondPassNews(bs, l, es, now, |turns|, second, j);
    }
  }

  lemma TwoPassesSizes(bs: seq<ReportBlock>, l: Last, es: seq<Entry>, first: nat, second: nat)
    requires TwoPasses(bs, l, es, first, second)
    ensures |bs| == first + second && first <= |PendingOf(l, es)| && second <= |PendingOf(l, SecondStart(l, es))|
  {
  }

  lemma ReachedNews(probation: ProbationType, turns: seq<Turn>, clock: Time)
    requires TurnsOk(turns, clock) && |turns| < 0x1_0000_0000
    ensures
      var w := Reached(probation, turns, clock);
      AllNews(w.table.entries, w.last, ClockAfterAll(turns, clock), |turns|)
  {
    hide TurnedAll, TableOk, AllNews;
    EmptyWorldOk(probation);
    NoneNews(Last(true, 0.0), clock, 0);
    TurnsNews(World(Empty(probation), Last(true, 0.0)), turns, clock, 0);
  }

  lemma EmptyWorldOk(probation: ProbationType)
    ensures WorldOk(World(Empty(probation), Last(true, 0.0)))
  {
  }
}
