/** `RTCPPacketBuilder` of rtcppacketbuilder.{h,cpp}: fills RTCP compound packets from the source
    table, one report pass at a time. */
module PacketBuilder {
  import opened Bytes
  import opened RtcpPackets
  import opened SdesPacket
  import opened CompoundFormat
  import opened CompoundRuns
  import opened CompoundBuilder
  import opened SourceStats
  import opened SourceData
  import opened SourceTable
  import opened SourceRuns
  import opened SourceAddresses
  import opened Sources
  import opened ReportMarks
  import opened ReportPass
  import ReceiveRuns

  // ---------------------------------------------------------------- room in a packet

  /** The size with one more report block; it does not matter which. */
  function NeededWithBlock(c: Content): nat
    requires ContentOk(c)
  {
    Needed(true, c.(blocks := c.blocks + [BLANK]))
  }

  lemma AnyBlock(c: Content, b: ReportBlock)
    requires ContentOk(c)
    ensures Needed(true, c.(blocks := c.blocks + [b])) == NeededWithBlock(c)
  {
  }

  // ---------------------------------------------------------------- SDES items of our own

  /** The order in which the optional items are filled in: name, e-mail, location, phone, tool, note. */
  const ORDER: seq<byte> := [NAME, EMAIL, LOCATION, PHONE, TOOL, NOTE]

  predicate Todo(wanted: seq<bool>, done: seq<bool>, id: byte)
    requires |wanted| == NUMITEMS == |done| && 1 <= id <= NUMITEMS
  {
    wanted[id - 1] && !done[id - 1]
  }

  /** The items that are wanted and not yet sent, from position `k` of the order on. */
  function TodoFrom(wanted: seq<bool>, done: seq<bool>, k: nat): (ids: seq<byte>)
    requires |wanted| == NUMITEMS == |done| && k <= |ORDER|
    ensures forall id | id in ids :: 1 <= id <= NUMITEMS
    decreases |ORDER| - k
  {
    if k == |ORDER| then []
    else if Todo(wanted, done, ORDER[k]) then [ORDER[k]] + TodoFrom(wanted, done, k + 1)
    else TodoFrom(wanted, done, k + 1)
  }

  lemma {:induction false} TodoDone(wanted: seq<bool>, done: seq<bool>, k: nat, j: nat)
    requires |wanted| == NUMITEMS == |done| && k < j <= |ORDER|
    ensures TodoFrom(wanted, done[ORDER[k] - 1 := true], j) == TodoFrom(wanted, done, j)
    decreases |ORDER| - j
  {
    if j < |ORDER| {
      TodoDone(wanted, done, k, j + 1);
    }
  }

  lemma {:induction false} NothingTodoBefore(wanted: seq<bool>, done: seq<bool>, k: nat)
    requires |wanted| == NUMITEMS == |done| && k <= |ORDER|
    requires forall j | 0 <= j < k :: !Todo(wanted, done, ORDER[j])
    ensures TodoFrom(wanted, done, 0) == TodoFrom(wanted, done, k)
  {
    if k > 0 {
      NothingTodoBefore(wanted, done, k - 1);
    }
  }

  lemma TodoStep(wanted: seq<bool>, done: seq<bool>, k: nat)
    requires |wanted| == NUMITEMS == |done| && k <= |ORDER|
    ensures k == |ORDER| ==> TodoFrom(wanted, done, k) == []
    ensures k < |ORDER| ==> 1 <= ORDER[k] <= NUMITEMS
    ensures k < |ORDER| ==>
      TodoFrom(wanted, done, k)
         == (if Todo(wanted, done, ORDER[k]) then [ORDER[k]] else []) + TodoFrom(wanted, done, k + 1)
  {
  }

  lemma DoneLeavesOthers(wanted: seq<bool>, done: seq<bool>, k: nat)
    requires |wanted| == NUMITEMS == |done| && k < |ORDER|
    requires forall j | 0 <= j < k :: !Todo(wanted, done, ORDER[j])
    ensures forall j | 0 <= j < k + 1 :: !Todo(wanted, done[ORDER[k] - 1 := true], ORDER[j])
    ensures TodoFrom(wanted, done[ORDER[k] - 1 := true], k + 1) == TodoFrom(wanted, done, k + 1)
  {
    hide TodoFrom, Todo;
    TodoDone(wanted, done, k, k + 1);
    OthersStay(ORDER, wanted, done, k);
  }

  /** Sending an item of the order leaves nothing to do up to it. */
  lemma OthersStay(order: seq<byte>, wanted: seq<bool>, done: seq<bool>, k: nat)
    requires |wanted| == NUMITEMS == |done| && k < |order| && forall j | 0 <= j < |order| :: 1 <= order[j] <= NUMITEMS
    requires forall j | 0 <= j < k :: !Todo(wanted, done, order[j])
    ensures forall j | 0 <= j < k + 1 :: !Todo(wanted, done[order[k] - 1 := true], order[j])
  {
    hide Todo;
    forall j | 0 <= j < k + 1
      ensures !Todo(wanted, done[order[k] - 1 := true], order[j])
    {
      DoneNotTodo(wanted, done, order[k], order[j]);
    }
  }

  lemma DoneNotTodo(wanted: seq<bool>, done: seq<bool>, id: byte, other: byte)
    requires |wanted| == NUMITEMS == |done| && 1 <= id <= NUMITEMS && 1 <= other <= NUMITEMS
    requires id == other || !Todo(wanted, done, other)
    ensures !Todo(wanted, done[id - 1 := true], other)
  {
  }

  function ItemsOf(ids: seq<byte>, data: seq<seq<byte>>): (r: seq<Item>)
    requires |data| == NUMITEMS && forall id | id in ids :: 1 <= id <= NUMITEMS
    ensures |r| == |ids|
  {
    seq(|ids|, i requires 0 <= i < |ids| => assert ids[i] in ids; Item.Item(ids[i], data[ids[i] - 1]))
  }

  lemma ItemsOfAppend(ids: seq<byte>, id: byte, data: seq<seq<byte>>)
    requires |data| == NUMITEMS && (forall x | x in ids :: 1 <= x <= NUMITEMS) && 1 <= id <= NUMITEMS
    ensures forall x | x in ids + [id] :: 1 <= x <= NUMITEMS
    ensures ItemsOf(ids + [id], data) == ItemsOf(ids, data) + [Item.Item(id, data[id - 1])]
  {
  }

  /** The content with more items in our own chunk. */
  function WithItems(c: Content, items: seq<Item>): Content
    requires |c.chunks| == 1
  {
    c.(chunks := [Chunk(c.chunks[0].ssrc, c.chunks[0].items + items)])
  }

  lemma ItemsLater(c: Content, items: seq<Item>, i: Item)
    requires |c.chunks| == 1
    ensures WithItems(WithItems(c, items), [i]) == WithItems(c, items + [i])
    ensures c.(chunks := CompoundRuns.WithItem(c.chunks, i)) == WithItems(c, [i])
  {
    assert c.chunks[0].items + items + [i] == c.chunks[0].items + (items + [i]);
  }

  lemma WithoutItems(c: Content)
    requires |c.chunks| == 1
    ensures WithItems(c, []) == c
  {
    assert c.chunks[0].items + [] == c.chunks[0].items;
    assert c.chunks == [c.chunks[0]];
  }

  lemma ItemFits(c: Content, i: Item)
    requires ContentOk(c) && |c.chunks| == 1 && ItemOk(i)
    ensures ContentOk(WithItems(c, [i]))
  {
    assert ChunkOk(c.chunks[0]);
    assert ChunkOk(Chunk(c.chunks[0].ssrc, c.chunks[0].items + [i]));
  }

  /** The size with one more item of our own. */
  ghost function NeededWithItem(c: Content, i: Item): nat
    requires ContentOk(c) && |c.chunks| == 1 && ItemOk(i)
  {
    ItemFits(c, i);
    Needed(true, WithItems(c, [i]))
  }

  // ---------------------------------------------------------------- rounds of our own items

  /** A round in which our items are sent: whether it goes on, what is wanted in it and what is sent, and
      the number of the round. */
  datatype Round = Round(going: bool, wanted: seq<bool>, done: seq<bool>, count: int)

  const NONE: seq<bool> := [false, false, false, false, false, false, false]

  /** A new round begins: an item with interval n is wanted in every n-th round. */
  function Begun(r: Round, intervals: seq<int>): Round
    requires |intervals| == NUMITEMS
  {
    var now := r.count + 1;
    Round(true, seq(NUMITEMS, i requires 0 <= i < NUMITEMS => intervals[i] > 0 && now % intervals[i] == 0), r.done, now)
  }

  function TodoOf(r: Round): (ids: seq<byte>)
    requires |r.wanted| == NUMITEMS == |r.done|
    ensures forall id | id in ids :: 1 <= id <= NUMITEMS
  {
    TodoFrom(r.wanted, r.done, 0)
  }

  /** A packet sends the items `sent` of a round; if these are the last, the round ends. */
  ghost predicate GoesOn(r: Round, s: Round, sent: seq<byte>) {
    && |r.wanted| == NUMITEMS == |r.done| && |s.done| == NUMITEMS && s.wanted == r.wanted && s.count == r.count
    && sent <= TodoOf(r)
    && if sent == TodoOf(r) then !s.going && s.done == NONE
       else s.going && TodoOf(s) == TodoOf(r)[|sent|..]
  }

  /** Our chunk holds our CNAME and behind it the items `sent`. */
  ghost predicate OwnItems(c: Content, cname: seq<byte>, data: seq<seq<byte>>, sent: seq<byte>)
    requires |data| == NUMITEMS
  {
    && |c.chunks| == 1 && (forall id | id in sent :: 1 <= id <= NUMITEMS)
    && c.chunks[0].items == [Item.Item(CNAME, cname)] + ItemsOf(sent, data)
  }

  /** The packet holds the items `sent`, and a round is only left unfinished for lack of room. */
  ghost predicate Sends(c: Content, max: nat, cname: seq<byte>, data: seq<seq<byte>>, r: Round, s: Round,
      sent: seq<byte>)
    requires |data| == NUMITEMS
  {
    && GoesOn(r, s, sent) && OwnItems(c, cname, data, sent)
    && (s.going ==>
          var id := TodoOf(r)[|sent|];
          && ContentOk(c) && |data[id - 1]| <= 255
          && NeededWithItem(c, Item.Item(id, data[id - 1])) > max)
  }

  // ---------------------------------------------------------------- the smallest packets

  /** A packet as it starts: our report without blocks, and our CNAME. */
  function OwnStart(ssrc: uint32, info: Option<SenderInfo>, cname: seq<byte>): Content {
    Content(ssrc, info, [], [Chunk(ssrc, [Item.Item(CNAME, cname)])], [], [])
  }

  lemma OneChunkSize(c: Chunk)
    ensures SdesNeeded([c]) == ChunkSize(c) + 4
  {
    assert [c][1..] == [];
    assert SizeOfChunks([c]) == ChunkSize(c) + SizeOfChunks([]);
  }

  lemma TwoItemsOffset(i: Item, j: Item)
    ensures ItemOffset([i], 1) == 2 + |i.data| && ItemOffset([i, j], 2) == 4 + |i.data| + |j.data|
  {
    assert [i][1..] == [] && [i, j][1..] == [j];
    assert ItemOffset([j], 1) == 2 + |j.data| + ItemOffset([], 0);
  }

  /** In 600 bytes there is room for the start of a packet, and beside it for a report block, for one
      more item of any length, or for a BYE with a reason of any length. */
  lemma MinimumIsEnough(ssrc: uint32, info: Option<SenderInfo>, cname: seq<byte>, i: Item)
    requires |cname| <= 255 && ItemOk(i)
    ensures
      var c := OwnStart(ssrc, info, cname);
      && ContentOk(c) && Needed(true, c) <= 296
      && NeededWithBlock(c) <= MINPACKETSIZE && NeededWithItem(c, i) <= MINPACKETSIZE
  {
    var c := OwnStart(ssrc, info, cname);
    assert ChunkOk(c.chunks[0]);
    ItemFits(c, i);
    TwoItemsOffset(c.chunks[0].items[0], i);
    var d := WithItems(c, [i]);
    assert [Item.Item(CNAME, cname)] + [i] == [Item.Item(CNAME, cname), i];
    assert d.chunks[0].items == [Item.Item(CNAME, cname), i];
    OneChunkSize(c.chunks[0]);
    OneChunkSize(d.chunks[0]);
    assert ContentOk(c);
    hide ItemOffset, SdesNeeded, ContentOk;
    assert TotalSize([]) == 0;
  }

  /** The contents on the way there. */
  lemma StartSteps(ssrc: uint32, info: Option<SenderInfo>, cname: seq<byte>)
    ensures
      var c := EMPTY.(ssrc := ssrc, info := info);
      var d := c.(chunks := c.chunks + [Chunk(ssrc, [])]);
      && ContentOk(EMPTY) && Needed(false, EMPTY) == 0 && ContentOk(c) && Needed(true, c) <= 28
      && d.chunks == [Chunk(ssrc, [])]
      && d.(chunks := CompoundRuns.WithItem(d.chunks, Item.Item(CNAME, cname))) == OwnStart(ssrc, info, cname)
  {
    assert TotalSize([]) == 0 && SdesNeeded([]) == 0;
    assert [] + [Item.Item(CNAME, cname)] == [Item.Item(CNAME, cname)];
    var d := [Chunk(ssrc, [])];
    assert EMPTY.chunks + d == d;
    assert CompoundRuns.WithItem(d, Item.Item(CNAME, cname)) == [Chunk(ssrc, [Item.Item(CNAME, cname)])];
  }

  lemma ByeIsEnough(ssrc: uint32, info: Option<SenderInfo>, cname: seq<byte>, reason: seq<byte>)
    requires |cname| <= 255 && |reason| <= 255
    ensures
      var c := OwnStart(ssrc, info, cname);
      var d := c.(byes := c.byes + [Bye.Bye([ssrc], reason)]);
      ContentOk(c) && ContentOk(d) && Needed(true, d) <= MINPACKETSIZE
  {
    MinimumIsEnough(ssrc, info, cname, Item.Item(CNAME, []));
    var c, b := OwnStart(ssrc, info, cname), Bye.Bye([ssrc], reason);
    assert ByeOk(b);
    assert |ByeBytes(b)| <= 264;
    ByePacketsAppend([], b);
    assert TotalSize(ByePackets([])) == 0;
    hide SdesNeeded, ReportNeeded, ByeBytes;
  }

  /** A packet with our own report and one chunk of our own that starts with our CNAME. */
  ghost predicate OwnPacket(c: Content, ssrc: uint32, info: Option<SenderInfo>, cname: seq<byte>) {
    && c.ssrc == ssrc && c.info == info && c.apps == [] && c.byes == []
    && |c.chunks| == 1 && c.chunks[0].ssrc == ssrc
    && c.chunks[0].items != [] && c.chunks[0].items[0] == Item.Item(CNAME, cname)
  }

  lemma OnePass(bs: seq<ReportBlock>, l: Last, es: seq<Entry>, first: nat)
    requires first <= |PendingOf(l, es)| && ReportsOnAll(bs, PendingOf(l, es)[..first])
    ensures TwoPasses([] + bs, l, es, first, 0)
  {
    hide PendingOf, ReportsOn;
    assert bs[..first] == bs && [] + bs == bs;
  }

  lemma AnotherPass(bs: seq<ReportBlock>, more: seq<ReportBlock>, l: Last, es: seq<Entry>, first: nat, second: nat)
    requires TwoPasses(bs, l, es, first, 0) && second <= |PendingOf(l, SecondStart(l, es))|
    requires ReportsOnAll(more, PendingOf(l, SecondStart(l, es))[..second])
    ensures TwoPasses(bs + more, l, es, first, second)
  {
    hide PendingOf, ReportsOn, SecondStart;
    assert (bs + more)[..first] == bs[..first] && (bs + more)[first..] == more;
  }

  /** Which sources a packet covers, and the table `fs` it leaves. `items` and `left` tell whether a round
      of our own items was unfinished before and is after. A packet that goes on with items and does not
      finish them has no blocks. Any other takes pending sources until the table or the room is used up;
      if no source is left and no item either, the flags are cleared and sources covered by an earlier
      packet come again, as many as there were, if there is room. */
  ghost predicate Covers(c: Content, max: nat, l: Last, es: seq<Entry>, fs: seq<Entry>, first: nat, second: nat,
      items: bool, left: bool) {
    && ContentOk(c) && TwoPasses(c.blocks, l, es, first, second)
    && if items && left then first == second == 0 && fs == es
       else if first < |PendingOf(l, es)| then second == 0 && NeededWithBlock(c) > max && fs == Marked(l, es, first)
       else
         && fs == Marked(l, SecondStart(l, es), second)
         && if items || left then second == 0
            else
              var skipped := FlaggedCount(EligibleOf(l, es));
              second == skipped || (second < skipped && NeededWithBlock(c) > max)
  }

  /** The blocks of a packet are of different sources exactly if those its second pass took had all been
      flagged before the packet. */
  lemma CoversDiffer(c: Content, max: nat, l: Last, es: seq<Entry>, fs: seq<Entry>, first: nat, second: nat,
      items: bool, left: bool)
    requires SsrcsDistinct(es) && Covers(c, max, l, es, fs, first, second, items, left)
    ensures DifferentSources(c.blocks) <==> FlaggedBefore(l, es, second)
  {
    hide PendingOf, EligibleOf, TwoPasses, SecondStart, Marked, NeededWithBlock, ContentOk, FlaggedCount,
      DifferentSources, FlaggedBefore;
    FirstWithin(c.blocks, l, es, first, second);
    BlocksDiffer(c.blocks, l, es, first, second);
  }

  lemma CoversUnfinished(c: Content, max: nat, l: Last, es: seq<Entry>, first: nat)
    requires ContentOk(c) && TwoPasses(c.blocks, l, es, first, 0) && first == |PendingOf(l, es)|
    ensures Covers(c, max, l, es, SecondStart(l, es), first, 0, false, true)
  {
    hide PendingOf, EligibleOf, TwoPasses, SecondStart, Marked, NeededWithBlock, ContentOk;
    SkippedPending(l, es);
  }

  lemma FirstWithin(bs: seq<ReportBlock>, l: Last, es: seq<Entry>, first: nat, second: nat)
    requires TwoPasses(bs, l, es, first, second)
    ensures first <= |PendingOf(l, es)|
  {
  }

  lemma NothingWanted(wanted: seq<bool>, done: seq<bool>)
    requires |wanted| == NUMITEMS == |done| && forall i | 0 <= i < NUMITEMS :: !wanted[i]
    ensures TodoFrom(wanted, done, 0) == []
  {
    hide TodoFrom;
    NothingTodoBefore(wanted, done, |ORDER|);
    TodoStep(wanted, done, |ORDER|);
  }

  datatype Fate = NotEligible | AlreadyCovered | Added | NoRoom

  // ---------------------------------------------------------------- the object

  class RTCPPacketBuilder {
    const sources: RTPSources
    var maxPacketSize: nat
    var firstPacket: bool
    var prevBuildTime: Time
    var cname: seq<byte>
    /** Our own SDES items by identifier less one, how often each is sent, which are wanted in this
        round and which of them are sent. */
    var localItems: seq<seq<byte>>
    var intervals: seq<int>
    var wanted: seq<bool>
    var itemDone: seq<bool>
    var processingSdes: bool
    var sdesBuildCount: int

    /** The object after `Init`. */
    ghost predicate Sized()
      reads this
    {
      && MINPACKETSIZE <= maxPacketSize < 0x1_0000_0000_0000_0000 && |cname| <= 255
      && |localItems| == |intervals| == |wanted| == |itemDone| == NUMITEMS
      && (forall i | 0 <= i < NUMITEMS :: |localItems[i]| <= 255)
    }

    /** Between two packets: a round that is not finished has an item to go, and without one no item counts
        as sent. */
    ghost predicate Ready()
      reads this
    {
      && Sized() && (processingSdes ==> TodoFrom(wanted, itemDone, 0) != [])
      && (!processingSdes ==> itemDone == NONE)
    }

    /** The round of our own items. */
    ghost function Items(): Round
      reads this`processingSdes, this`wanted, this`itemDone, this`sdesBuildCount
    {
      Round(processingSdes, wanted, itemDone, sdesBuildCount)
    }

    constructor (sources: RTPSources, maxPacketSize: nat, cname: seq<byte>)
      requires MINPACKETSIZE <= maxPacketSize < 0x1_0000_0000_0000_0000
      ensures this.sources == sources && this.maxPacketSize == maxPacketSize && Ready()
      ensures firstPacket && !processingSdes && this.cname == cname[..Min(255, |cname|)]
    {
      this.sources, this.maxPacketSize, firstPacket, prevBuildTime := sources, maxPacketSize, true, 0.0;
      this.cname := cname[..Min(255, |cname|)];
      localItems := [[], [], [], [], [], [], []];
      intervals := [-1, -1, -1, -1, -1, -1, -1];
      wanted := [false, false, false, false, false, false, false];
      itemDone := [false, false, false, false, false, false, false];
      processingSdes, sdesBuildCount := false, 0;
    }

    /** No item besides the CNAME is ever sent. */
    ghost predicate NoOptionalItems()
      reads this`intervals
    {
      forall i | 0 <= i < |intervals| :: intervals[i] <= 0
    }

    ghost function Past(): Last
      reads this`firstPacket, this`prevBuildTime
    {
      Last(firstPacket, prevBuildTime)
    }

    /** `shouldprocess` */
    method ShouldProcess(srcdat: RTPInternalSourceData) returns (r: bool)
      ensures r <==> Eligible(Past(), srcdat.View())
    {
      r := false;
      if !srcdat.ownSsrc {
        if !srcdat.isCsrc {
          if srcdat.stats.nr.sentData {
            if firstPacket {
              r := true;
            } else {
              var lastRtpTime := srcdat.stats.timing.lastRtpTime;
              if lastRtpTime > prevBuildTime {
                r := true;
              }
            }
          }
        }
      }
    }

    /** The block for an entry. The fraction of an interval without packets is not determined. */
    method MakeBlock(srcdat: RTPInternalSourceData, lastSr: (uint32, uint32)) returns (b: ReportBlock)
      ensures ReportsOn(b, srcdat.View()) && (b.lsr, b.dlsr) == lastSr
    {
      var n := srcdat.stats.nr;
      var num, expected := n.numNewPackets, Sub32(n.extHighSeqNr, n.savedExtSeqNr);
      var fracLost: byte := *;
      if expected < num {
        fracLost := 0;
      } else if num > 0 {
        ReceiveRuns.FractionFits(expected, num);
        fracLost := ReceiveRuns.FractionLost(expected, num);
      }
      var lost := Sub32(Sub32(n.extHighSeqNr, n.baseSeqNr), n.packetsReceived);
      var jitter: uint32 := srcdat.stats.timing.dJitter.Floor % 0x1_0000_0000;
      b := ReportBlock(srcdat.ssrc, fracLost, Signed32(lost), n.extHighSeqNr, jitter, lastSr.0, lastSr.1);
    }

    /** The entry has been reported. */
    method MarkReported(srcdat: RTPInternalSourceData, ghost i: nat)
      requires sources.Linked() && i < |sources.sources| && sources.sources[i] == srcdat
      modifies srcdat
      ensures sources.Linked() && srcdat.View() == Reported(old(srcdat.View()))
      ensures sources.Entries() == old(sources.Entries())[i := srcdat.View()]
    {
      hide RTPSources.Linked;
      srcdat.StartNewInterval();
      srcdat.SetProcessedInRTCP(true);
      sources.OneChanged(i);
    }

    /** In the middle of a report pass over the entries `es` there were: the `added` pending entries
        before `stop` are reported. */
    ghost predicate Covered(es: seq<Entry>, added: nat, stop: nat)
      reads this`firstPacket, this`prevBuildTime, sources`sources, sources.sources
    {
      && stop <= |es| == |sources.sources|
      && added == |PendingOf(Past(), es[..stop])| && sources.Entries() == Marked(Past(), es, added)
    }

    /** The packet holds what it held before the pass, and blocks `bs` for those entries. */
    ghost predicate Collected(builder: RTCPCompoundPacketBuilder, c: Content, bs: seq<ReportBlock>, es: seq<Entry>,
        stop: nat)
      requires stop <= |es|
      reads this`firstPacket, this`prevBuildTime, builder
    {
      && builder.Valid() && ContentOk(builder.content) && builder.areBuilding && builder.headerLength != 0
      && builder.content == c.(blocks := c.blocks + bs) && ReportsOnAll(bs, PendingOf(Past(), es[..stop]))
      && (bs != [] ==> builder.Fits())
    }

    /** A block for a pending entry, if there is room. */
    method TryReport(builder: RTCPCompoundPacketBuilder, srcdat: RTPInternalSourceData, lastSr: (uint32, uint32),
        ghost es: seq<Entry>, ghost added: nat, ghost pos: nat) returns (ok: bool, ghost b: ReportBlock)
      requires sources.Linked() && Covered(es, added, pos) && pos < |es| && Pending(Past(), es[pos])
      requires sources.sources[pos] == srcdat
      requires builder.Valid() && builder.areBuilding && builder.headerLength != 0
      modifies srcdat, builder`reportBlocks, builder`content
      ensures builder.Valid() && ContentOk(builder.content) && sources.Linked()
      ensures ok <==> NeededWithBlock(old(builder.content)) <= builder.maximumPacketSize
      ensures !ok ==> builder.content == old(builder.content) && sources.Entries() == old(sources.Entries())
      ensures !ok && old(builder.Fits()) ==> builder.Fits()
      ensures ok ==> sources.Entries() == Marked(Past(), es, added + 1) && builder.Fits() && ReportsOn(b, es[pos])
      ensures ok ==> builder.content == old(builder.content).(blocks := old(builder.content).blocks + [b])
    {
      hide RTPSources.Linked, Eligible, ReportsOn, Needed, Reported, Views, RTCPCompoundPacketBuilder.ReportValid,
        SourcesAre;
      MarkNext(Past(), es, pos);
      ViewsAt(sources.sources, pos);
      var block := MakeBlock(srcdat, lastSr);
      b := block;
      AnyBlock(builder.content, b);
      var status := builder.AddReportBlock(block);
      if status.Failure? {
        return false, b;
      }
      MarkReported(srcdat, pos);
      ok := true;
    }

    /** What a report pass does with one entry. */
    method ProcessSource(builder: RTCPCompoundPacketBuilder, srcdat: RTPInternalSourceData, lastSr: (uint32, uint32),
        ghost es: seq<Entry>, ghost added: nat, ghost pos: nat, ghost c: Content, ghost bs: seq<ReportBlock>)
      returns (fate: Fate, ghost more: seq<ReportBlock>)
      requires sources.Linked() && Covered(es, added, pos) && pos < |es| && sources.sources[pos] == srcdat
      requires Collected(builder, c, bs, es, pos)
      modifies srcdat, builder`reportBlocks, builder`content
      ensures sources.Linked() && |more| == |bs| + (if fate == Added then 1 else 0) && (fate != Added ==> more == bs)
      ensures fate != NoRoom ==>
        && Covered(es, if fate == Added then added + 1 else added, pos + 1)
        && Collected(builder, c, more, es, pos + 1)
        && FlaggedCount(EligibleOf(Past(), es[..pos + 1]))
           == FlaggedCount(EligibleOf(Past(), es[..pos])) + Bit(fate == AlreadyCovered)
      ensures fate == NoRoom ==>
        && Covered(es, added, pos) && Collected(builder, c, bs, es, pos) && Pending(Past(), es[pos])
        && ContentOk(builder.content) && NeededWithBlock(builder.content) > builder.maximumPacketSize
    {
      hide RTPSources.Linked, Eligible, Views, ReportsOn, Needed, RTCPCompoundPacketBuilder.Valid, PendingOf,
        EligibleOf,
        FlaggedCount, RTCPCompoundPacketBuilder.Fits;
      MarkNext(Past(), es, pos);
      ViewsAt(sources.sources, pos);
      FlaggedCountLast(EligibleOf(Past(), es[..pos]), es[pos]);
      more := bs;
      var shouldProcess := ShouldProcess(srcdat);
      if !shouldProcess {
        fate := NotEligible;
      } else if srcdat.processedInRtcp {
        fate := AlreadyCovered;
      } else {
        ghost var b;
        var ok;
        ok, b := TryReport(builder, srcdat, lastSr, es, added, pos);
        fate := if ok then Added else NoRoom;
        if ok {
          more := bs + [b];
          assert c.blocks + bs + [b] == c.blocks + more;
        }
      }
    }

    /** The search at the end of `FillInReportBlocks` for a source that still needs a block. */
    method FindPending(ghost stop: nat) returns (atEnd: bool, ghost k: nat)
      requires sources.Linked() && sources.CursorAt(stop) && stop < |sources.sources|
      modifies sources.sourceList`curHashElem
      ensures sources.Linked() && stop <= k <= |sources.sources| && (atEnd <==> k == |sources.sources|)
      ensures forall j | stop <= j < k :: !Pending(Past(), sources.Entries()[j])
      ensures !atEnd ==> Pending(Past(), sources.Entries()[k])
    {
      hide RTPSources.Linked, Eligible, Views, RTPSources.CursorAt;
      atEnd, k := false, stop;
      var shouldProcess := false;
      while !atEnd && !shouldProcess
        invariant sources.Linked() && sources.CursorAt(k) && stop <= k <= |sources.sources|
        invariant atEnd <==> k == |sources.sources|
        invariant forall j | stop <= j < k :: !Pending(Past(), sources.Entries()[j])
        invariant shouldProcess ==> k < |sources.sources| && Pending(Past(), sources.Entries()[k])
        decreases |sources.sources| - k, !shouldProcess
      {
        var srcdat := sources.GetCurrentSourceInfo(k);
        ViewsAt(sources.sources, k);
        shouldProcess := ShouldProcess(srcdat);
        if shouldProcess {
          if srcdat.processedInRtcp {
            shouldProcess := false;
          }
        }
        if !shouldProcess {
          var more := sources.GotoNextSource(k);
          k := k + 1;
          if !more {
            atEnd := true;
          }
        }
      }
    }

    /** One report pass. The first `added` pending sources get a block and are flagged, the others stay
        as they were; `full` exactly if it stopped for lack of room, `atEndOfList` exactly if no
        eligible source is left without a flag. */
    method FillInReportBlocks(builder: RTCPCompoundPacketBuilder, maxCount: int, lastSr: uint32 -> (uint32, uint32))
      returns (full: bool, added: nat, skipped: nat, atEndOfList: bool)
      requires sources.Linked() && sources.sources != [] && maxCount >= 1
      requires builder.Valid() && builder.areBuilding && builder.headerLength != 0 && ContentOk(builder.content)
      modifies sources.sources, sources.sourceList`curHashElem, builder`reportBlocks, builder`content
      ensures sources.Linked() && builder.Valid() && ContentOk(builder.content)
      ensures sources.Entries() == Marked(Past(), old(sources.Entries()), added)
      ensures added <= |PendingOf(Past(), old(sources.Entries()))| && added <= maxCount
      ensures exists bs ::
        && builder.content == old(builder.content).(blocks := old(builder.content).blocks + bs)
        && ReportsOnAll(bs, PendingOf(Past(), old(sources.Entries()))[..added])
      ensures added > 0 ==> builder.Fits()
      ensures added == 0 ==> builder.content == old(builder.content)
      ensures full <==>
        && added < |PendingOf(Past(), old(sources.Entries()))| && added < maxCount
        && NeededWithBlock(builder.content) > builder.maximumPacketSize
      ensures !full ==> added == Min(|PendingOf(Past(), old(sources.Entries()))|, maxCount)
      ensures !full && (added < maxCount || maxCount >= |sources.sources|) ==>
        skipped == FlaggedCount(EligibleOf(Past(), old(sources.Entries())))
      ensures atEndOfList <==> PendingOf(Past(), sources.Entries()) == []
    {
      hide RTPSources.Linked, Eligible, Views, RTPSources.CursorAt, Needed, RTCPCompoundPacketBuilder.Valid, PendingOf,
        EligibleOf, FlaggedCount, Covered, Collected, RTCPCompoundPacketBuilder.Fits;
      ghost var es, c, bs, stop: nat, l := sources.Entries(), builder.content, [], 0, Past();
      added, skipped := 0, 0;
      var done, filled, atEnd := false, false, false;
      PassBegins(builder, es);
      var found := sources.GotoFirstSource();
      while !done
        invariant sources.Linked() && sources.CursorAt(stop) && Covered(es, added, stop)
        invariant stop <= |es| == |sources.sources|
        invariant Collected(builder, c, bs, es, stop) && |bs| == added <= maxCount
        invariant skipped == FlaggedCount(EligibleOf(l, es[..stop]))
        invariant atEnd <==> stop == |es|
        invariant atEnd || filled ==> done
        invariant !done ==> added < maxCount
        invariant filled <==> done && added < maxCount && stop < |es|
        invariant filled ==> Pending(l, es[stop]) && ContentOk(builder.content)
        invariant filled ==> NeededWithBlock(builder.content) > builder.maximumPacketSize
        decreases |es| - stop, !done
      {
        var srcdat := sources.GetCurrentSourceInfo(stop);
        var fate;
        fate, bs := ProcessSource(builder, srcdat, lastSr(srcdat.ssrc), es, added, stop, c, bs);
        match fate {
          case NotEligible =>
          case AlreadyCovered => skipped := skipped + 1;
          case Added => added := added + 1;
          case NoRoom => done, filled := true, true;
        }
        if !filled {
          if added >= maxCount {
            done := true;
          }
          var more := sources.GotoNextSource(stop);
          stop := stop + 1;
          if !more {
            atEnd, done := true, true;
          }
        }
      }
      full, atEndOfList := filled, atEnd;
      StoppedAt(l, es, stop);
      PassStopped(builder, c, bs, es, added, stop);
      PendingOfShort(l, es[..stop]);
      ghost var k := stop;
      if !atEnd {
        atEndOfList, k := FindPending(stop);
      }
      assert forall j | stop <= j < |es| :: es[j] == sources.Entries()[j];
      PendingAfter(l, es, stop, k);
    }

    lemma PassBegins(builder: RTCPCompoundPacketBuilder, es: seq<Entry>)
      requires builder.Valid() && builder.areBuilding && builder.headerLength != 0 && ContentOk(builder.content)
      requires es == sources.Entries()
      ensures Covered(es, 0, 0) && Collected(builder, builder.content, [], es, 0)
      ensures FlaggedCount(EligibleOf(Past(), es[..0])) == 0
    {
      hide RTCPCompoundPacketBuilder.Valid, Views;
      NothingPendingYet(Past(), es);
      assert builder.content.blocks + [] == builder.content.blocks;
    }

    lemma PassStopped(builder: RTCPCompoundPacketBuilder, c: Content, bs: seq<ReportBlock>, es: seq<Entry>, added: nat,
        stop: nat)
      requires Covered(es, added, stop) && Collected(builder, c, bs, es, stop) && |bs| == added
      requires PendingOf(Past(), es[..stop]) <= PendingOf(Past(), es)
      ensures sources.Entries() == Marked(Past(), es, added) && added == |PendingOf(Past(), es[..stop])|
      ensures builder.Valid() && ContentOk(builder.content) && (bs != [] ==> builder.Fits())
      ensures builder.content == c.(blocks := c.blocks + bs) && (added == 0 ==> builder.content == c)
      ensures added <= |PendingOf(Past(), es)| && ReportsOnAll(bs, PendingOf(Past(), es)[..added])
    {
      hide RTCPCompoundPacketBuilder.Valid, Views, PendingOf, ReportsOn;
      assert c.blocks + [] == c.blocks;
      assert PendingOf(Past(), es)[..added] == PendingOf(Past(), es[..stop]);
    }

    /** Everything the source table keeps survives a report pass or a clearing of the flags. */
    twostate lemma TableKept()
      requires old(sources.Valid()) && sources.Linked() && sources.sources == old(sources.sources)
      requires sources.ownData == old(sources.ownData) && sources.totalCount == old(sources.totalCount)
      requires sources.senderCount == old(sources.senderCount) && sources.activeCount == old(sources.activeCount)
      requires sources.silent == old(sources.silent)
      requires SameButReports(old(sources.Entries()), sources.Entries())
      ensures sources.Valid()
    {
      hide RTPSources.Linked, Views, TableOk, OwnIndex, Reported;
      var t := old(sources.View());
      ReportsKeepTable(t, sources.Entries());
      ReportsKeepOwn(old(sources.Entries()), sources.Entries());
      OwnIndexSame(old(sources.Entries()), sources.Entries());
    }

    static lemma ReportsKeepOwn(es: seq<Entry>, fs: seq<Entry>)
      requires SameButReports(es, fs)
      ensures OwnSame(es, fs)
    {
    }

    method ClearAllSourceFlags()
      requires sources.Linked()
      modifies sources.sources, sources.sourceList`curHashElem
      ensures sources.Linked() && sources.Entries() == Cleared(old(sources.Entries()))
    {
      hide RTPSources.Linked, Views, RTPSources.CursorAt;
      ghost var es, k := sources.Entries(), 0;
      var more := sources.GotoFirstSource();
      while more
        invariant sources.Linked() && sources.CursorAt(k) && k <= |es| == |sources.sources|
        invariant more <==> k < |es|
        invariant forall i | 0 <= i < |es| ::
          sources.Entries()[i] == if i < k then es[i].(processed := false) else es[i]
        decreases |es| - k
      {
        var srcdat := sources.GetCurrentSourceInfo(k);
        ClearFlag(srcdat, k);
        more := sources.GotoNextSource(k);
        k := k + 1;
      }
    }

    method ClearFlag(srcdat: RTPInternalSourceData, ghost i: nat)
      requires sources.Linked() && i < |sources.sources| && sources.sources[i] == srcdat
      modifies srcdat
      ensures sources.Linked()
      ensures sources.Entries() == old(sources.Entries())[i := old(sources.Entries())[i].(processed := false)]
    {
      hide RTPSources.Linked, Views;
      ViewsAt(sources.sources, i);
      srcdat.SetProcessedInRTCP(false);
      sources.OneChanged(i);
    }

    /** One more item of our own, if there is room. */
    method TryItem(builder: RTCPCompoundPacketBuilder, id: byte, ghost c: Content, ghost ids: seq<byte>)
      returns (ok: bool)
      requires |localItems| == NUMITEMS && 1 <= id <= NUMITEMS && |localItems[id - 1]| <= 255
      requires builder.Valid() && builder.areBuilding && builder.headerLength != 0 && ContentOk(builder.content)
      requires |c.chunks| == 1 && forall x | x in ids :: 1 <= x <= NUMITEMS
      requires builder.content == WithItems(c, ItemsOf(ids, localItems))
      modifies builder`sdesSources, builder`content
      ensures builder.Valid() && ContentOk(builder.content) && |builder.content.chunks| == 1
      ensures ok ==>
        && (forall x | x in ids + [id] :: 1 <= x <= NUMITEMS)
        && builder.content == WithItems(c, ItemsOf(ids + [id], localItems)) && builder.Fits()
      ensures !ok ==>
        && builder.content == old(builder.content) && (old(builder.Fits()) ==> builder.Fits())
        && NeededWithItem(builder.content, Item.Item(id, localItems[id - 1])) > builder.maximumPacketSize
    {
      hide Needed, RTCPCompoundPacketBuilder.ReportValid, SourcesAre, ItemsOf;
      var i := Item.Item(id, localItems[id - 1]);
      ItemsOfAppend(ids, id, localItems);
      ItemsLater(c, ItemsOf(ids, localItems), i);
      ItemsLater(builder.content, [], i);
      ItemFits(builder.content, i);
      var status := builder.AddSDESNormalItem(id, localItems[id - 1]);
      ok := status.Success?;
    }

    /** Fills in the wanted items that are not sent yet, as far as there is room. */
    method FillInSDES(builder: RTCPCompoundPacketBuilder) returns (full: bool, processedAll: bool, added: nat)
      requires Sized() && builder.Valid() && builder.areBuilding && builder.headerLength != 0
      requires ContentOk(builder.content) && |builder.content.chunks| == 1
      modifies this`itemDone, builder`sdesSources, builder`content
      ensures builder.Valid() && ContentOk(builder.content) && |itemDone| == NUMITEMS && full == !processedAll
      ensures
        var todo := TodoFrom(wanted, old(itemDone), 0);
        && added <= |todo| && TodoFrom(wanted, itemDone, 0) == todo[added..] && (full <==> added < |todo|)
        && (forall id | id in todo[..added] :: 1 <= id <= NUMITEMS)
        && builder.content == WithItems(old(builder.content), ItemsOf(todo[..added], localItems))
        && (full ==> NoRoomFor(builder, todo[added]))
      ensures old(builder.Fits()) ==> builder.Fits()
    {
      hide RTCPCompoundPacketBuilder.Valid, Needed, ItemsOf, RTCPCompoundPacketBuilder.Fits, TodoFrom, Todo, ContentOk,
        WithItems, SdesFilled, NeededWithItem;
      full, added := false, 0;
      ghost var c, todo, ids: seq<byte> := builder.content, TodoFrom(wanted, itemDone, 0), [];
      SdesBegins(builder);
      var k := 0;
      while k < |ORDER| && !full
        invariant k <= |ORDER| && |itemDone| == NUMITEMS && SdesFilled(builder, c, todo, ids, k) && added == |ids|
        invariant old(builder.Fits()) ==> ContentOk(builder.content) && builder.Fits()
        invariant full ==> k < |ORDER| && Todo(wanted, itemDone, ORDER[k]) && NoRoomFor(builder, ORDER[k])
        decreases |ORDER| - k, !full
      {
        var ok, put;
        ok, put, ids := NextItem(builder, k, c, todo, ids);
        if put {
          added := added + 1;
        }
        if ok {
          k := k + 1;
        } else {
          full := true;
        }
      }
      processedAll := !full;
      SdesEnds(builder, c, todo, ids, k);
    }

    /** In the middle of `FillInSDES`: the items `ids` are in, and the rest of `todo` is still to go. */
    ghost predicate SdesFilled(builder: RTCPCompoundPacketBuilder, c: Content, todo: seq<byte>, ids: seq<byte>, k: nat)
      requires k <= |ORDER|
      reads this`localItems, this`wanted, this`itemDone, builder
    {
      && |localItems| == |wanted| == |itemDone| == NUMITEMS && |c.chunks| == 1
      && builder.Valid() && ContentOk(builder.content) && builder.areBuilding && builder.headerLength != 0
      && (forall j | 0 <= j < k :: !Todo(wanted, itemDone, ORDER[j]))
      && todo == ids + TodoFrom(wanted, itemDone, k) && (forall x | x in ids :: 1 <= x <= NUMITEMS)
      && builder.content == WithItems(c, ItemsOf(ids, localItems))
    }

    ghost predicate NoRoomFor(builder: RTCPCompoundPacketBuilder, id: byte)
      reads this`localItems, builder
    {
      && ContentOk(builder.content) && |builder.content.chunks| == 1 && |localItems| == NUMITEMS && 1 <= id <= NUMITEMS
      && |localItems[id - 1]| <= 255
      && NeededWithItem(builder.content, Item.Item(id, localItems[id - 1])) > builder.maximumPacketSize
    }

    lemma SdesBegins(builder: RTCPCompoundPacketBuilder)
      requires Sized() && builder.Valid() && builder.areBuilding && builder.headerLength != 0
      requires ContentOk(builder.content) && |builder.content.chunks| == 1
      ensures SdesFilled(builder, builder.content, TodoFrom(wanted, itemDone, 0), [], 0)
    {
      WithoutItems(builder.content);
    }

    lemma SdesEnds(builder: RTCPCompoundPacketBuilder, c: Content, todo: seq<byte>, ids: seq<byte>, k: nat)
      requires k <= |ORDER| && SdesFilled(builder, c, todo, ids, k)
      requires k == |ORDER| || Todo(wanted, itemDone, ORDER[k])
      ensures builder.Valid() && ContentOk(builder.content) && |ids| <= |todo| && (k < |ORDER| <==> |ids| < |todo|)
      ensures TodoFrom(wanted, itemDone, 0) == todo[|ids|..] && todo[..|ids|] == ids
      ensures forall x | x in ids :: 1 <= x <= NUMITEMS
      ensures builder.content == WithItems(c, ItemsOf(ids, localItems))
      ensures k < |ORDER| ==> todo[|ids|] == ORDER[k]
    {
      hide RTCPCompoundPacketBuilder.Valid, ItemsOf, TodoFrom;
      TodoStep(wanted, itemDone, k);
      NothingTodoBefore(wanted, itemDone, k);
    }

    /** The item at position `k` of the order, if it is wanted and there is room. */
    method NextItem(builder: RTCPCompoundPacketBuilder, k: nat, ghost c: Content, ghost todo: seq<byte>,
        ghost ids: seq<byte>)
      returns (ok: bool, put: bool, ghost more: seq<byte>)
      requires k < |ORDER| && SdesFilled(builder, c, todo, ids, k)
      requires forall i | 0 <= i < NUMITEMS :: |localItems[i]| <= 255
      modifies this`itemDone, builder`sdesSources, builder`content
      ensures |itemDone| == NUMITEMS && |more| == |ids| + (if put then 1 else 0)
      ensures ok ==> SdesFilled(builder, c, todo, more, k + 1)
      ensures !ok ==> more == ids && SdesFilled(builder, c, todo, ids, k)
      ensures !ok ==> Todo(wanted, itemDone, ORDER[k]) && NoRoomFor(builder, ORDER[k])
      ensures old(builder.Fits()) ==> ContentOk(builder.content) && builder.Fits()
    {
      hide RTCPCompoundPacketBuilder.Valid, Needed, ItemsOf, TodoFrom, WithItems;
      ok, put, more := true, false, ids;
      TodoStep(wanted, itemDone, k);
      var id := ORDER[k];
      if wanted[id - 1] && !itemDone[id - 1] {
        ok := TryItem(builder, id, c, ids);
        put := ok;
        if ok {
          DoneLeavesOthers(wanted, itemDone, k);
          assert ids + ([id] + TodoFrom(wanted, itemDone, k + 1)) == ids + [id] + TodoFrom(wanted, itemDone, k + 1);
          more := ids + [id];
          itemDone := itemDone[id - 1 := true];
        }
      }
    }

    /** How both kinds of packet start. In at least 600 bytes none of the steps can fail. */
    method StartPacket(ssrc: uint32, info: Option<SenderInfo>) returns (builder: RTCPCompoundPacketBuilder)
      requires Sized()
      ensures fresh(builder) && Building(builder) && builder.content == OwnStart(ssrc, info, cname)
    {
      hide Needed, ContentOk, OwnStart, RTCPCompoundPacketBuilder.ReportValid, SourcesAre, CompoundRuns.After,
        CompoundRuns.WithItem, ByePackets,
        AppPackets, Concat, NeededWithBlock;
      MinimumIsEnough(ssrc, info, cname, Item.Item(CNAME, []));
      StartSteps(ssrc, info, cname);
      builder := StartOwnReport(ssrc, info);
      var status := builder.AddSDESSource(ssrc);
      assert status.Success?;
      status := builder.AddSDESNormalItem(CNAME, cname);
      assert status.Success?;
    }

    /** A new packet with our own report. */
    method StartOwnReport(ssrc: uint32, info: Option<SenderInfo>) returns (builder: RTCPCompoundPacketBuilder)
      requires Sized()
      ensures fresh(builder) && Building(builder) && builder.content == EMPTY.(ssrc := ssrc, info := info)
    {
      hide Needed, ContentOk, RTCPCompoundPacketBuilder.ReportValid, SourcesAre, CompoundRuns.After, ByePackets,
        AppPackets, Concat;
      StartSteps(ssrc, info, []);
      builder := new RTCPCompoundPacketBuilder();
      var status := builder.InitBuild(maxPacketSize, null);
      assert status.Success?;
      status := builder.StartReport(ssrc, info);
      assert status.Success?;
    }

    /** A finished packet: the bytes of its content, within the limit. */
    ghost predicate Finished(packet: RTCPCompoundPacketBuilder, c: Content)
      reads this`maxPacketSize, packet, packet.compoundPacket
    {
      && ContentOk(c) && packet.compoundPacket != null
      && packet.compoundPacketLength == |CompoundBytes(c)| <= maxPacketSize
      && packet.compoundPacketLength <= packet.compoundPacket.Length
      && packet.compoundPacket[..packet.compoundPacketLength] == CompoundBytes(c)
    }

    method Finish(builder: RTCPCompoundPacketBuilder)
      requires Building(builder)
      modifies builder
      ensures Finished(builder, old(builder.content)) && fresh(builder.compoundPacket)
    {
      hide Needed, CompoundBytes, ContentOk, RTCPCompoundPacketBuilder.ReportValid, SourcesAre;
      var status := builder.EndBuild();
      assert status.Success?;
    }

    /** A BYE packet, however long the reason; it always fits. */
    method BuildBYEPacket(ssrc: uint32, info: SenderInfo, reason: seq<byte>, useSRIfPossible: bool)
      returns (packet: RTCPCompoundPacketBuilder, ghost c: Content)
      requires Sized()
      ensures fresh(packet) && Finished(packet, c)
      ensures c.byes == [Bye.Bye([ssrc], reason[..Min(255, |reason|)])]
      ensures c == OwnStart(ssrc, c.info, cname).(byes := c.byes)
      ensures c.info ==
        if useSRIfPossible && sources.ownData != null && sources.ownData.isSender then Some(info) else None
    {
      hide Needed, OwnStart, CompoundBytes, ContentOk, Finished, RTCPCompoundPacketBuilder.Valid;
      var why := reason[..Min(255, |reason|)];
      var useSR := false;
      if useSRIfPossible && sources.ownData != null {
        useSR := sources.ownData.isSender;
      }
      var first := if useSR then Some(info) else None;
      packet := StartPacket(ssrc, first);
      ByeIsEnough(ssrc, first, cname, why);
      StartIs(ssrc, first, cname);
      var status := packet.AddBYEPacket([ssrc], why);
      assert status.Success?;
      c := packet.content;
      Finish(packet);
    }

    static lemma StartIsOwn(ssrc: uint32, info: Option<SenderInfo>, cname: seq<byte>)
      ensures OwnPacket(OwnStart(ssrc, info, cname), ssrc, info, cname)
    {
    }

    static lemma OwnWithBlocks(c: Content, bs: seq<ReportBlock>, ssrc: uint32, info: Option<SenderInfo>,
        cname: seq<byte>)
      requires OwnPacket(c, ssrc, info, cname)
      ensures OwnPacket(c.(blocks := bs), ssrc, info, cname) && c.(blocks := c.blocks) == c
    {
    }

    static lemma StartIs(ssrc: uint32, info: Option<SenderInfo>, cname: seq<byte>)
      ensures
        var c := OwnStart(ssrc, info, cname);
        c.ssrc == ssrc && c.info == info && c.byes == [] && c.blocks == [] && c.apps == []
        && c.chunks == [Chunk(ssrc, [Item.Item(CNAME, cname)])]
    {
    }

    /** A packet in the making, all of which fits. */
    ghost predicate Building(builder: RTCPCompoundPacketBuilder)
      reads this`maxPacketSize, builder
    {
      && builder.Valid() && builder.areBuilding && builder.headerLength != 0
      && ContentOk(builder.content) && builder.Fits()
      && builder.maximumPacketSize == maxPacketSize && !builder.external && builder.buffer == null
      && builder.compoundPacket == null && builder.rtcpPackList == []
    }

    /** A report pass as a step of building a packet. */
    method ReportStep(builder: RTCPCompoundPacketBuilder, maxCount: int, lastSr: uint32 -> (uint32, uint32))
      returns (full: bool, added: nat, skipped: nat, atEndOfList: bool, ghost bs: seq<ReportBlock>)
      requires sources.Valid() && sources.sources != [] && maxCount >= 1 && Building(builder)
      modifies sources.sources, sources.sourceList`curHashElem, builder`reportBlocks, builder`content
      ensures sources.Valid() && Building(builder)
      ensures sources.Entries() == Marked(Past(), old(sources.Entries()), added)
      ensures added <= |PendingOf(Past(), old(sources.Entries()))| && added <= maxCount
      ensures builder.content == old(builder.content).(blocks := old(builder.content).blocks + bs)
      ensures |bs| == added && ReportsOnAll(bs, PendingOf(Past(), old(sources.Entries()))[..added])
      ensures full ==>
        NeededWithBlock(builder.content) > maxPacketSize && added < |PendingOf(Past(), old(sources.Entries()))|
      ensures full ==> added < maxCount
      ensures !full ==> added == Min(|PendingOf(Past(), old(sources.Entries()))|, maxCount)
      ensures !full && maxCount >= |sources.sources| ==> added == |PendingOf(Past(), old(sources.Entries()))|
      ensures !full && maxCount >= |sources.sources| ==>
        skipped == FlaggedCount(EligibleOf(Past(), old(sources.Entries())))
      ensures atEndOfList <==> PendingOf(Past(), sources.Entries()) == []
    {
      hide RTPSources.Linked, RTPSources.OwnMatches, TableOk, Views, PendingOf, EligibleOf, FlaggedCount, ReportsOn,
        Needed,
        RTCPCompoundPacketBuilder.Valid, ContentOk, Marked;
      ghost var es, c := sources.Entries(), builder.content;
      full, added, skipped, atEndOfList := FillInReportBlocks(builder, maxCount, lastSr);
      bs :| builder.content == c.(blocks := c.blocks + bs) && ReportsOnAll(bs, PendingOf(Past(), es)[..added]);
      OnlyReportsChange(Past(), es, added);
      TableKept();
      PendingOfShort(Past(), es);
    }

    method ClearStep()
      requires sources.Valid()
      modifies sources.sources, sources.sourceList`curHashElem
      ensures sources.Valid() && sources.Entries() == Cleared(old(sources.Entries()))
    {
      hide RTPSources.Linked, RTPSources.OwnMatches, TableOk, Views, Cleared;
      ghost var es := sources.Entries();
      ClearAllSourceFlags();
      OnlyReportsChange(Past(), es, 0);
      TableKept();
    }

    /** Decides which optional items this round sends. */
    method StartSdesRound()
      requires Sized()
      modifies this`sdesBuildCount, this`wanted
      ensures Items().(going := true) == Begun(old(Items()), intervals)
    {
      sdesBuildCount := sdesBuildCount + 1;
      var now, every := sdesBuildCount, intervals;
      wanted := seq(NUMITEMS, i requires 0 <= i < NUMITEMS => every[i] > 0 && now % every[i] == 0);
    }

    /** `ClearAllSDESFlags` */
    method ClearAllSDESFlags()
      modifies this`itemDone
      ensures itemDone == NONE
    {
      itemDone := seq(NUMITEMS, _ => false);
    }

    /** Filling in our own items as a step of building a packet. */
    method SdesStep(builder: RTCPCompoundPacketBuilder, ghost ssrc: uint32, ghost info: Option<SenderInfo>)
      returns (full: bool, processedAll: bool, added: nat, ghost sent: seq<byte>)
      requires Sized() && Building(builder) && OwnPacket(builder.content, ssrc, info, cname)
      requires OwnItems(builder.content, cname, localItems, [])
      modifies this`itemDone, builder`sdesSources, builder`content
      ensures Building(builder) && OwnPacket(builder.content, ssrc, info, cname) && full == !processedAll
      ensures builder.content.blocks == old(builder.content).blocks
      ensures |itemDone| == NUMITEMS && (processedAll <==> TodoFrom(wanted, itemDone, 0) == [])
      ensures full && added == 0 ==>
        TodoFrom(wanted, old(itemDone), 0) != [] && NoRoomFor(builder, TodoFrom(wanted, old(itemDone), 0)[0])
      ensures full && added == 0 ==> builder.content == old(builder.content)
      ensures processedAll && TodoFrom(wanted, old(itemDone), 0) != [] ==> added > 0
      ensures TodoFrom(wanted, old(itemDone), 0) == [] ==> processedAll && builder.content == old(builder.content)
      ensures OwnItems(builder.content, cname, localItems, sent) && |sent| == added
      ensures
        var todo := TodoFrom(wanted, old(itemDone), 0);
        && sent <= todo && (processedAll <==> sent == todo) && TodoFrom(wanted, itemDone, 0) == todo[added..]
        && (full ==> NoRoomFor(builder, todo[added]))
    {
      hide RTCPCompoundPacketBuilder.Valid, ContentOk, Needed, TodoFrom, ItemsOf, NoRoomFor;
      ghost var c, todo := builder.content, TodoFrom(wanted, itemDone, 0);
      WithoutItems(c);
      full, processedAll, added := FillInSDES(builder);
      sent := todo[..added];
      assert todo[..0] == [] && ItemsOf([], localItems) == [];
      assert [Item.Item(CNAME, cname)] + [] == [Item.Item(CNAME, cname)];
    }

    /** The second report pass: some of the sources an earlier packet covered. */
    method SecondPass(builder: RTCPCompoundPacketBuilder, skipped: nat, lastSr: uint32 -> (uint32, uint32),
        ghost es: seq<Entry>, ghost first: nat) returns (ghost second: nat)
      requires sources.Valid() && sources.sources != [] && skipped > 0 && Building(builder)
      requires skipped <= |PendingOf(Past(), SecondStart(Past(), es))|
      requires sources.Entries() == SecondStart(Past(), es) && TwoPasses(builder.content.blocks, Past(), es, first, 0)
      modifies sources.sources, sources.sourceList`curHashElem, builder`reportBlocks, builder`content
      ensures sources.Valid() && Building(builder) && second <= skipped
      ensures builder.content == old(builder.content).(blocks := builder.content.blocks)
      ensures TwoPasses(builder.content.blocks, Past(), es, first, second)
      ensures sources.Entries() == Marked(Past(), SecondStart(Past(), es), second)
      ensures second == skipped || (second < skipped && NeededWithBlock(builder.content) > maxPacketSize)
    {
      hide NeededWithBlock, RTPSources.Valid, Views, PendingOf, EligibleOf, FlaggedCount, ReportsOnAll, Marked,
        TwoPasses, Building, SecondStart;
      ghost var before := builder.content.blocks;
      var full, added, skippedNow, atEnd;
      ghost var bs;
      full, added, skippedNow, atEnd, bs := ReportStep(builder, skipped, lastSr);
      second := added;
      AnotherPass(before, bs, Past(), es, first, second);
    }

    /** What follows a report pass that covered every source: our own items, and a second pass if they
        are all in. */
    method AfterReports(builder: RTCPCompoundPacketBuilder, skipped: nat, lastSr: uint32 -> (uint32, uint32),
        ghost ssrc: uint32, ghost info: Option<SenderInfo>, ghost es: seq<Entry>, ghost first: nat)
      returns (ghost second: nat, ghost sent: seq<byte>)
      requires Sized() && sources.Valid() && sources.sources != []
      requires Building(builder) && OwnPacket(builder.content, ssrc, info, cname)
      requires OwnItems(builder.content, cname, localItems, [])
      requires first == |PendingOf(Past(), es)| && sources.Entries() == Marked(Past(), es, first)
      requires TwoPasses(builder.content.blocks, Past(), es, first, 0)
      requires skipped == FlaggedCount(EligibleOf(Past(), es))
      modifies this`processingSdes, this`sdesBuildCount, this`wanted, this`itemDone, sources.sources,
               sources.sourceList`curHashElem, builder`reportBlocks, builder`sdesSources, builder`content
      ensures Ready() && sources.Valid() && Building(builder) && OwnPacket(builder.content, ssrc, info, cname)
      ensures Covers(builder.content, maxPacketSize, Past(), es, sources.Entries(), first, second, false,
                     processingSdes)
      ensures NoOptionalItems() ==>
        !processingSdes && builder.content == old(builder.content).(blocks := builder.content.blocks)
      ensures Sends(builder.content, maxPacketSize, cname, localItems, Begun(old(Items()), intervals), Items(), sent)
    {
      hide RTPSources.Valid, Views, PendingOf, EligibleOf, FlaggedCount, Marked, TwoPasses, TodoFrom, NoRoomFor,
        Cleared, NeededWithBlock, OwnPacket, SecondStart, Covers, RTCPCompoundPacketBuilder.Valid, Needed,
        NoOptionalItems, ContentOk, Building, OwnItems, Begun;
      second := 0;
      BeginItems(es, first);
      ghost var r := Items();
      var full, processedAll, itemCount;
      full, processedAll, itemCount, sent := SdesStep(builder, ssrc, info);
      SentSoFar(builder, r, sent);
      if processedAll {
        ghost var c := builder.content;
        second := EndItems(builder, skipped, lastSr, ssrc, info, es, first);
        SameItems(c, builder.content, cname, localItems, sent);
      } else {
        BuildingOk(builder);
        CoversUnfinished(builder.content, maxPacketSize, Past(), es, first);
      }
    }

    /** A round of our own items begins: the flags are cleared, and it is settled what to send. */
    method BeginItems(ghost es: seq<Entry>, ghost first: nat)
      requires Sized() && sources.Valid() && first == |PendingOf(Past(), es)|
      requires sources.Entries() == Marked(Past(), es, first)
      modifies this`processingSdes, this`sdesBuildCount, this`wanted, sources.sources, sources.sourceList`curHashElem
      ensures Sized() && sources.Valid() && processingSdes && sources.Entries() == SecondStart(Past(), es)
      ensures NoOptionalItems() ==> TodoFrom(wanted, itemDone, 0) == []
      ensures Items() == Begun(old(Items()), intervals)
    {
      hide RTPSources.Valid, Views, PendingOf, EligibleOf, FlaggedCount, Marked, TodoFrom, Cleared, SecondStart,
        NoOptionalItems;
      processingSdes := true;
      ClearStep();
      SkippedPending(Past(), es);
      StartRound();
    }

    /** A packet holds the items `sent` of the round `r`, and there is no room for the next. */
    lemma SentSoFar(builder: RTCPCompoundPacketBuilder, r: Round, sent: seq<byte>)
      requires Sized() && Building(builder) && OwnItems(builder.content, cname, localItems, sent)
      requires |r.wanted| == NUMITEMS == |r.done| && r.wanted == wanted && r.count == sdesBuildCount
      requires sent <= TodoOf(r) && (sent != TodoOf(r) ==> NoRoomFor(builder, TodoOf(r)[|sent|]))
      requires TodoFrom(wanted, itemDone, 0) == TodoOf(r)[|sent|..]
      ensures sent != TodoOf(r) ==>
        Sends(builder.content, maxPacketSize, cname, localItems, r, Items().(going := true), sent)
      ensures sent == TodoOf(r) ==>
        GoesOn(r, Items().(going := false, done := NONE), sent)
    {
      hide RTCPCompoundPacketBuilder.Valid, Needed, TodoFrom, OwnItems, NeededWithItem;
    }

    static lemma SameItems(c: Content, d: Content, cname: seq<byte>, data: seq<seq<byte>>, sent: seq<byte>)
      requires |data| == NUMITEMS && OwnItems(c, cname, data, sent) && d.chunks == c.chunks
      ensures OwnItems(d, cname, data, sent)
    {
    }

    static lemma StartItems(ssrc: uint32, info: Option<SenderInfo>, cname: seq<byte>, data: seq<seq<byte>>)
      requires |data| == NUMITEMS
      ensures OwnItems(OwnStart(ssrc, info, cname), cname, data, [])
    {
    }

    lemma BuildingOk(builder: RTCPCompoundPacketBuilder)
      requires Building(builder)
      ensures ContentOk(builder.content)
    {
    }

    /** The second pass, if any source was skipped. */
    method SecondRound(builder: RTCPCompoundPacketBuilder, skipped: nat, lastSr: uint32 -> (uint32, uint32),
        ghost ssrc: uint32, ghost info: Option<SenderInfo>, ghost es: seq<Entry>, ghost first: nat)
      returns (ghost second: nat)
      requires sources.Valid() && sources.sources != [] && Building(builder)
      requires OwnPacket(builder.content, ssrc, info, cname)
      requires skipped == FlaggedCount(EligibleOf(Past(), es)) <= |PendingOf(Past(), SecondStart(Past(), es))|
      requires sources.Entries() == SecondStart(Past(), es) && TwoPasses(builder.content.blocks, Past(), es, first, 0)
      requires first == |PendingOf(Past(), es)|
      requires Marked(Past(), SecondStart(Past(), es), 0) == SecondStart(Past(), es)
      modifies sources.sources, sources.sourceList`curHashElem, builder`reportBlocks, builder`content
      ensures sources.Valid() && Building(builder) && OwnPacket(builder.content, ssrc, info, cname)
      ensures Covers(builder.content, maxPacketSize, Past(), es, sources.Entries(), first, second, false, false)
      ensures builder.content == old(builder.content).(blocks := builder.content.blocks)
    {
      hide RTPSources.Valid, Views, PendingOf, EligibleOf, FlaggedCount, Marked, TwoPasses, NeededWithBlock,
        SecondStart, OwnPacket,
        RTCPCompoundPacketBuilder.Valid, Needed, RTCPCompoundPacketBuilder.Fits;
      second := 0;
      OwnWithBlocks(builder.content, [], ssrc, info, cname);
      if skipped > 0 {
        second := SecondPass(builder, skipped, lastSr, es, first);
        OwnWithBlocks(old(builder.content), builder.content.blocks, ssrc, info, cname);
      }
    }

    /** All items are in: the round ends, and a second pass may follow. */
    method EndItems(builder: RTCPCompoundPacketBuilder, skipped: nat, lastSr: uint32 -> (uint32, uint32),
        ghost ssrc: uint32, ghost info: Option<SenderInfo>, ghost es: seq<Entry>, ghost first: nat)
      returns (ghost second: nat)
      requires Sized() && sources.Valid() && sources.sources != []
      requires Building(builder) && OwnPacket(builder.content, ssrc, info, cname)
      requires skipped == FlaggedCount(EligibleOf(Past(), es)) && first == |PendingOf(Past(), es)|
      requires sources.Entries() == SecondStart(Past(), es) && TwoPasses(builder.content.blocks, Past(), es, first, 0)
      modifies this`processingSdes, this`itemDone, sources.sources, sources.sourceList`curHashElem,
               builder`reportBlocks, builder`content
      ensures Sized() && !processingSdes && itemDone == NONE && sources.Valid() && Building(builder)
      ensures OwnPacket(builder.content, ssrc, info, cname)
      ensures Covers(builder.content, maxPacketSize, Past(), es, sources.Entries(), first, second, false, false)
      ensures builder.content == old(builder.content).(blocks := builder.content.blocks)
    {
      hide RTPSources.Valid, Views, PendingOf, EligibleOf, FlaggedCount, Marked, TwoPasses, SecondStart, OwnPacket,
        Building, Covers;
      processingSdes := false;
      ClearAllSDESFlags();
      SkippedPending(Past(), es);
      second := SecondRound(builder, skipped, lastSr, ssrc, info, es, first);
    }

    /** `StartSdesRound` when no item is ever sent. */
    method StartRound()
      requires Sized()
      modifies this`sdesBuildCount, this`wanted
      ensures Sized() && (NoOptionalItems() ==> TodoFrom(wanted, itemDone, 0) == [])
      ensures Items().(going := true) == Begun(old(Items()), intervals)
    {
      StartSdesRound();
      if forall i | 0 <= i < NUMITEMS :: intervals[i] <= 0 {
        NothingWanted(wanted, itemDone);
      }
    }

    /** A packet that starts with a report pass. Nothing in it can fail for lack of room. */
    method ReportRound(builder: RTCPCompoundPacketBuilder, lastSr: uint32 -> (uint32, uint32),
        ghost ssrc: uint32, ghost info: Option<SenderInfo>)
      returns (ghost first: nat, ghost second: nat, ghost sent: seq<byte>)
      requires Ready() && !processingSdes && sources.Valid() && sources.sources != []
      requires Building(builder) && builder.content == OwnStart(ssrc, info, cname)
      modifies this`processingSdes, this`sdesBuildCount, this`wanted, this`itemDone, sources.sources,
               sources.sourceList`curHashElem, builder`reportBlocks, builder`sdesSources, builder`content
      ensures Ready() && sources.Valid() && Building(builder) && OwnPacket(builder.content, ssrc, info, cname)
      ensures Covers(builder.content, maxPacketSize, Past(), old(sources.Entries()), sources.Entries(), first, second,
                     false, processingSdes)
      ensures first == 0 ==> PendingOf(Past(), old(sources.Entries())) == []
      ensures NoOptionalItems() ==>
        !processingSdes && builder.content == OwnStart(ssrc, info, cname).(blocks := builder.content.blocks)
      ensures ItemsFollow(builder.content, old(Items()), Past(), old(sources.Entries()), first, sent)
    {
      hide RTPSources.Valid, Views, PendingOf, EligibleOf, FlaggedCount, ReportsOnAll, NeededWithBlock, Marked,
        TwoPasses, SecondStart, OwnStart, OwnPacket, Needed, RTCPCompoundPacketBuilder.Valid, OwnItems, Sends, Begun;
      ghost var es, l := sources.Entries(), Past();
      MinimumIsEnough(ssrc, info, cname, Item.Item(CNAME, []));
      StartIs(ssrc, info, cname);
      StartIsOwn(ssrc, info, cname);
      TotalIsSize();
      var full, added, skipped, atEnd;
      ghost var bs;
      full, added, skipped, atEnd, bs := ReportStep(builder, sources.totalCount, lastSr);
      first, second, sent := added, 0, [];
      StartItems(ssrc, info, cname, localItems);
      SameItems(OwnStart(ssrc, info, cname), builder.content, cname, localItems, []);
      OnePass(bs, l, es, added);
      assert [] + bs == bs;
      OwnWithBlocks(OwnStart(ssrc, info, cname), bs, ssrc, info, cname);
      assert !(full && added == 0);
      if !full {
        second, sent := AfterReports(builder, skipped, lastSr, ssrc, info, es, first);
      }
    }

    /** Which of our items a packet sends: it goes on with a round; or begins one, if its reports cover all
        sources that are pending; or sends none. */
    ghost predicate ItemsFollow(c: Content, r: Round, l: Last, es: seq<Entry>, first: nat, sent: seq<byte>)
      requires |localItems| == |intervals| == NUMITEMS
      reads this`maxPacketSize, this`cname, this`localItems, this`intervals
      reads this`processingSdes, this`wanted, this`itemDone, this`sdesBuildCount
    {
      if r.going then sent != [] && Sends(c, maxPacketSize, cname, localItems, r, Items(), sent)
      else if first == |PendingOf(l, es)| then
        Sends(c, maxPacketSize, cname, localItems, Begun(r, intervals), Items(), sent)
      else sent == [] && Items() == r && OwnItems(c, cname, localItems, [])
    }

    lemma TotalIsSize()
      requires sources.Valid()
      ensures sources.totalCount == |sources.sources|
    {
      hide RTPSources.Linked, RTPSources.OwnMatches, Views;
    }

    /** A packet that goes on with the items of an unfinished round; at least one of them fits. */
    method ItemRound(builder: RTCPCompoundPacketBuilder, lastSr: uint32 -> (uint32, uint32),
        ghost ssrc: uint32, ghost info: Option<SenderInfo>) returns (ghost first: nat, ghost sent: seq<byte>)
      requires Ready() && processingSdes && sources.Valid() && sources.sources != []
      requires Building(builder) && builder.content == OwnStart(ssrc, info, cname)
      modifies this`processingSdes, this`itemDone, sources.sources, sources.sourceList`curHashElem,
               builder`reportBlocks, builder`sdesSources, builder`content
      ensures Ready() && sources.Valid() && Building(builder) && OwnPacket(builder.content, ssrc, info, cname)
      ensures Covers(builder.content, maxPacketSize, Past(), old(sources.Entries()), sources.Entries(), first, 0,
                     true, processingSdes)
      ensures sent != [] && Sends(builder.content, maxPacketSize, cname, localItems, old(Items()), Items(), sent)
    {
      hide RTPSources.Valid, Views, PendingOf, EligibleOf, FlaggedCount, Marked, TwoPasses, TodoFrom, NoRoomFor,
        NeededWithBlock, OwnStart, OwnPacket, Needed, RTCPCompoundPacketBuilder.Valid, OwnItems;
      ghost var r := Items();
      StartItems(ssrc, info, cname, localItems);
      ghost var es, l, todo := sources.Entries(), Past(), TodoFrom(wanted, itemDone, 0);
      assert todo[0] in todo;
      RoomForFirst(builder, ssrc, info, todo[0]);
      StartIs(ssrc, info, cname);
      TotalIsSize();
      NothingPendingYet(l, es);
      OnePass([], l, es, 0);
      assert OwnStart(ssrc, info, cname).blocks == [] + [];
      first := 0;
      var full, processedAll, itemCount;
      full, processedAll, itemCount, sent := SdesStep(builder, ssrc, info);
      SentSoFar(builder, r, sent);
      if full && itemCount == 0 {
        RoomForFirst(builder, ssrc, info, todo[0]);
      }
      assert itemCount != 0;
      if processedAll {
        processingSdes := false;
        ClearAllSDESFlags();
        if !full {
          ghost var c := builder.content;
          first := LateReports(builder, lastSr, ssrc, info);
          SameItems(c, builder.content, cname, localItems, sent);
        }
      }
    }

    /** The report pass after the last of our items. */
    method LateReports(builder: RTCPCompoundPacketBuilder, lastSr: uint32 -> (uint32, uint32),
        ghost ssrc: uint32, ghost info: Option<SenderInfo>) returns (ghost first: nat)
      requires sources.Valid() && sources.sources != []
      requires Building(builder) && OwnPacket(builder.content, ssrc, info, cname) && builder.content.blocks == []
      modifies sources.sources, sources.sourceList`curHashElem, builder`reportBlocks, builder`content
      ensures sources.Valid() && Building(builder) && OwnPacket(builder.content, ssrc, info, cname)
      ensures Covers(builder.content, maxPacketSize, Past(), old(sources.Entries()), sources.Entries(), first, 0,
                     true, false)
      ensures builder.content == old(builder.content).(blocks := builder.content.blocks)
    {
      hide RTPSources.Valid, Views, PendingOf, EligibleOf, FlaggedCount, ReportsOnAll, Marked, TwoPasses, Cleared,
        NeededWithBlock,
        Needed, RTCPCompoundPacketBuilder.Valid, OwnPacket;
      ghost var es, l := sources.Entries(), Past();
      TotalIsSize();
      NothingPendingYet(l, es);
      SkippedPending(l, es);
      OwnWithBlocks(builder.content, [], ssrc, info, cname);
      var full, added, skipped, atEnd;
      ghost var bs;
      full, added, skipped, atEnd, bs := ReportStep(builder, sources.totalCount, lastSr);
      first := added;
      OnePass(bs, l, es, first);
      assert [] + bs == bs;
      OwnWithBlocks(old(builder.content), bs, ssrc, info, cname);
      PendingAfterPass(l, es, first);
      if atEnd {
        ClearStep();
      }
    }

    lemma RoomForFirst(builder: RTCPCompoundPacketBuilder, ssrc: uint32, info: Option<SenderInfo>, id: byte)
      requires Sized() && Building(builder) && builder.content == OwnStart(ssrc, info, cname) && 1 <= id <= NUMITEMS
      ensures !NoRoomFor(builder, id) && OwnPacket(builder.content, ssrc, info, cname)
    {
      hide RTCPCompoundPacketBuilder.Valid, Needed;
      MinimumIsEnough(ssrc, info, cname, Item.Item(id, localItems[id - 1]));
    }

    /** What goes into a packet behind its start. */
    method FillPacket(builder: RTCPCompoundPacketBuilder, lastSr: uint32 -> (uint32, uint32),
        ghost ssrc: uint32, ghost info: Option<SenderInfo>)
      returns (ghost first: nat, ghost second: nat, ghost sent: seq<byte>)
      requires Ready() && sources.Valid() && sources.sources != []
      requires Building(builder) && builder.content == OwnStart(ssrc, info, cname)
      modifies this`processingSdes, this`sdesBuildCount, this`wanted, this`itemDone, sources.sources,
               sources.sourceList`curHashElem, builder`reportBlocks, builder`sdesSources, builder`content
      ensures Ready() && sources.Valid() && Building(builder) && OwnPacket(builder.content, ssrc, info, cname)
      ensures Covers(builder.content, maxPacketSize, Past(), old(sources.Entries()), sources.Entries(), first, second,
                     old(processingSdes), processingSdes)
      ensures DifferentSources(builder.content.blocks) <==> FlaggedBefore(Past(), old(sources.Entries()), second)
      ensures !old(processingSdes) && PendingOf(Past(), old(sources.Entries())) != [] ==> first > 0
      ensures !old(processingSdes) && NoOptionalItems() ==>
        !processingSdes && builder.content == OwnStart(ssrc, info, cname).(blocks := builder.content.blocks)
      ensures ItemsFollow(builder.content, old(Items()), Past(), old(sources.Entries()), first, sent)
    {
      hide RTPSources.Valid, Views, PendingOf, OwnStart, OwnPacket, RTCPCompoundPacketBuilder.Valid, Needed, ContentOk,
        Covers, SsrcsDistinct, DifferentSources, FlaggedBefore, Building, NoOptionalItems, TodoFrom, Sends, Begun,
        OwnItems;
      ghost var es, items := sources.Entries(), processingSdes;
      DistinctEntries();
      first, second := 0, 0;
      if !processingSdes {
        first, second, sent := ReportRound(builder, lastSr, ssrc, info);
      } else {
        first, sent := ItemRound(builder, lastSr, ssrc, info);
      }
      CoversDiffer(builder.content, maxPacketSize, Past(), es, sources.Entries(), first, second, items, processingSdes);
    }

    /** The next regular packet up to its end. */
    method StartAndFill(ssrc: uint32, senderInfo: SenderInfo, lastSr: uint32 -> (uint32, uint32))
      returns (packet: RTCPCompoundPacketBuilder, ghost first: nat, ghost second: nat, ghost sent: seq<byte>,
        ghost info: Option<SenderInfo>)
      requires Ready() && sources.Valid() && sources.sources != []
      modifies this`processingSdes, this`sdesBuildCount, this`wanted, this`itemDone, sources.sources,
               sources.sourceList`curHashElem
      ensures Ready() && sources.Valid() && fresh(packet) && Building(packet)
      ensures info == if old(sources.ownData != null && sources.ownData.isSender) then Some(senderInfo) else None
      ensures OwnPacket(packet.content, ssrc, info, cname)
      ensures Covers(packet.content, maxPacketSize, Past(), old(sources.Entries()), sources.Entries(), first, second,
                     old(processingSdes), processingSdes)
      ensures DifferentSources(packet.content.blocks) <==> FlaggedBefore(Past(), old(sources.Entries()), second)
      ensures !old(processingSdes) && PendingOf(Past(), old(sources.Entries())) != [] ==> first > 0
      ensures !old(processingSdes) && NoOptionalItems() ==>
        !processingSdes && packet.content == OwnStart(ssrc, info, cname).(blocks := packet.content.blocks)
      ensures ItemsFollow(packet.content, old(Items()), Past(), old(sources.Entries()), first, sent)
    {
      hide RTPSources.Valid, Views, PendingOf, OwnStart, OwnPacket, RTCPCompoundPacketBuilder.Valid, Needed, ContentOk,
        Covers, DifferentSources, FlaggedBefore, Building, NoOptionalItems, TodoFrom, ItemsFollow;
      var sender := AreSender();
      var senders := if sender then Some(senderInfo) else None;
      info := senders;
      packet := StartPacket(ssrc, senders);
      first, second, sent := FillPacket(packet, lastSr, ssrc, senders);
    }

    /** The next regular packet. It is always built and stays within the limit; its blocks are those of
        one report pass, or of two (see `ReportPass.NoSourceTwice` for when a source is in both). */
    method BuildNextPacket(ssrc: uint32, senderInfo: SenderInfo, curTime: Time, lastSr: uint32 -> (uint32, uint32))
      returns (packet: RTCPCompoundPacketBuilder, ghost c: Content, ghost first: nat, ghost second: nat,
        ghost sent: seq<byte>)
      requires Ready() && sources.Valid() && sources.sources != []
      modifies this, sources.sources, sources.sourceList`curHashElem
      ensures Ready() && sources.Valid() && fresh(packet) && Finished(packet, c)
      ensures !firstPacket && prevBuildTime == curTime && maxPacketSize == old(maxPacketSize) && cname == old(cname)
      ensures
        var sender := old(sources.ownData != null && sources.ownData.isSender);
        OwnPacket(c, ssrc, if sender then Some(senderInfo) else None, cname)
      ensures Covers(c, maxPacketSize, old(Past()), old(sources.Entries()), sources.Entries(), first, second,
                     old(processingSdes), processingSdes)
      ensures !old(processingSdes) && PendingOf(old(Past()), old(sources.Entries())) != [] ==> first > 0
      ensures DifferentSources(c.blocks) <==> FlaggedBefore(old(Past()), old(sources.Entries()), second)
      ensures !old(processingSdes) && NoOptionalItems() ==>
        !processingSdes && c == OwnStart(ssrc, c.info, cname).(blocks := c.blocks)
      ensures localItems == old(localItems) && intervals == old(intervals)
      ensures ItemsFollow(c, old(Items()), old(Past()), old(sources.Entries()), first, sent)
    {
      hide RTPSources.Valid, Views, PendingOf, OwnStart, Finished, OwnPacket, RTCPCompoundPacketBuilder.Valid, Needed,
        ContentOk, Covers, DifferentSources, FlaggedBefore, Building, NoOptionalItems, TodoFrom, ItemsFollow;
      ghost var info;
      packet, first, second, sent, info := StartAndFill(ssrc, senderInfo, lastSr);
      c := packet.content;
      OwnInfo(c, ssrc, info, cname);
      Finish(packet);
      firstPacket := false;
      prevBuildTime := curTime;
    }

    /** Whether we send data ourselves, and so report in an SR. */
    method AreSender() returns (sender: bool)
      ensures sender <==> sources.ownData != null && sources.ownData.isSender
    {
      sender := false;
      if sources.ownData != null {
        if sources.ownData.isSender {
          sender := true;
        }
      }
    }

    lemma DistinctEntries()
      requires sources.Valid()
      ensures SsrcsDistinct(sources.Entries())
    {
      hide RTPSources.Linked, RTPSources.OwnMatches, Views;
    }

    static lemma OwnInfo(c: Content, ssrc: uint32, info: Option<SenderInfo>, cname: seq<byte>)
      requires OwnPacket(c, ssrc, info, cname)
      ensures c.info == info
    {
    }
  }
}
