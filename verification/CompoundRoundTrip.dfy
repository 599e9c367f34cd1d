/** A receiver that reads every packet of a built compound packet gets back what was added, in
    order, across the splits at 31 blocks and 31 chunks. */
module CompoundRoundTrip {
  import opened Bytes
  import opened RtcpPackets
  import opened SdesPacket
  import opened CompoundFormat
  import SdesReader
  import CP = CompoundPacket

  /** Everything read from a list of packets. */
  datatype Gathered = Gathered(blocks: seq<ReportBlock>, chunks: seq<Chunk>, apps: seq<App>, byes: seq<Bye>)

  const NOTHING := Gathered([], [], [], [])

  function Plus(a: Gathered, b: Gathered): Gathered {
    Gathered(a.blocks + b.blocks, a.chunks + b.chunks, a.apps + b.apps, a.byes + b.byes)
  }

  predicate Readable(p: seq<byte>) {
    |p| >= 4 && CP.Known(p)
  }

  /** What the readers of one packet object return. */
  function GatherOne(p: seq<byte>): Gathered
    requires Readable(p)
  {
    if Type(p) in {SR, RR} then NOTHING.(blocks := ReadBlocks(p, BlocksAt(Type(p)), Count(p)))
    else if Type(p) == SDES then NOTHING.(chunks := SdesReader.ReadSdes(p).value)
    else if Type(p) == APP then NOTHING.(apps := [ReadApp(p)])
    else if Type(p) == BYE then NOTHING.(byes := [ReadBye(p)])
    else NOTHING
  }

  function Gather(ps: seq<seq<byte>>): Gathered
    requires forall p | p in ps :: Readable(p)
  {
    if ps == [] then NOTHING else Plus(GatherOne(ps[0]), Gather(ps[1..]))
  }

  lemma PlusNothing(g: Gathered)
    ensures Plus(NOTHING, g) == g && Plus(g, NOTHING) == g
  {
  }

  lemma PlusAssoc(a: Gathered, b: Gathered, c: Gathered)
    ensures Plus(Plus(a, b), c) == Plus(a, Plus(b, c))
  {
  }

  lemma {:induction false} GatherAppend(a: seq<seq<byte>>, b: seq<seq<byte>>)
    requires (forall p | p in a :: Readable(p)) && forall p | p in b :: Readable(p)
    ensures Gather(a + b) == Plus(Gather(a), Gather(b))
  {
    hide Readable, GatherOne, Plus;
    if a == [] {
      assert a + b == b;
      PlusNothing(Gather(b));
    } else {
      assert (a + b)[1..] == a[1..] + b;
      GatherAppend(a[1..], b);
      PlusAssoc(GatherOne(a[0]), Gather(a[1..]), Gather(b));
    }
  }

  lemma GatherSingle(p: seq<byte>)
    requires Readable(p)
    ensures Gather([p]) == GatherOne(p)
  {
    hide Readable, GatherOne, Plus;
    assert [p][1..] == [];
    PlusNothing(GatherOne(p));
  }

  lemma BuiltIsReadable(ps: seq<seq<byte>>)
    requires AllBuilt(ps)
    ensures forall p | p in ps :: Readable(p)
  {
    forall p | p in ps
      ensures Readable(p)
    {
      assert Built(p);
    }
  }

  lemma GatherReport(ssrc: uint32, info: Option<SenderInfo>, blocks: seq<ReportBlock>)
    requires |blocks| <= MAXPERPACKET
    ensures Readable(ReportPacket(ssrc, info, blocks))
    ensures GatherOne(ReportPacket(ssrc, info, blocks)) == NOTHING.(blocks := CutAll(blocks))
  {
    hide ReportPacket, ReadBlocks, CutAll;
    ReportPacketRead(ssrc, info, blocks);
  }

  lemma CutAllSplit(bs: seq<ReportBlock>, k: nat)
    requires k <= |bs|
    ensures CutAll(bs[..k]) + CutAll(bs[k..]) == CutAll(bs)
  {
  }

  lemma {:induction false} GatherReports(ssrc: uint32, info: Option<SenderInfo>, blocks: seq<ReportBlock>)
    ensures forall p | p in ReportPackets(ssrc, info, blocks) :: Readable(p)
    ensures Gather(ReportPackets(ssrc, info, blocks)) == NOTHING.(blocks := CutAll(blocks))
    decreases |blocks|
  {
    hide Readable, GatherOne, CutAll, Gather, ReportPacket;
    ReportsBuilt(ssrc, info, blocks);
    BuiltIsReadable(ReportPackets(ssrc, info, blocks));
    if |blocks| <= MAXPERPACKET {
      GatherReport(ssrc, info, blocks);
      GatherSingle(ReportPacket(ssrc, info, blocks));
    } else {
      var p := ReportPacket(ssrc, info, blocks[..MAXPERPACKET]);
      var rest := ReportPackets(ssrc, None, blocks[MAXPERPACKET..]);
      GatherReport(ssrc, info, blocks[..MAXPERPACKET]);
      GatherReports(ssrc, None, blocks[MAXPERPACKET..]);
      GatherSingle(p);
      GatherAppend([p], rest);
      CutAllSplit(blocks, MAXPERPACKET);
    }
  }

  lemma GatherSdes(cs: seq<Chunk>)
    requires |cs| <= MAXPERPACKET && ChunksOk(cs)
    ensures Readable(SdesBytes(cs)) && GatherOne(SdesBytes(cs)) == NOTHING.(chunks := cs)
  {
    hide SdesBytes;
    SdesBytesRead(cs);
  }

  lemma {:induction false} GatherSdesPackets(cs: seq<Chunk>)
    requires ChunksOk(cs)
    ensures forall p | p in SdesPackets(cs) :: Readable(p)
    ensures Gather(SdesPackets(cs)) == NOTHING.(chunks := cs)
    decreases |cs|
  {
    hide Readable, GatherOne, SdesBytes;
    SdesBuilt(cs);
    BuiltIsReadable(SdesPackets(cs));
    if cs == [] {
    } else if |cs| <= MAXPERPACKET {
      GatherSdes(cs);
      GatherSingle(SdesBytes(cs));
    } else {
      var p, rest := SdesBytes(cs[..MAXPERPACKET]), SdesPackets(cs[MAXPERPACKET..]);
      GatherSdes(cs[..MAXPERPACKET]);
      GatherSdesPackets(cs[MAXPERPACKET..]);
      GatherSingle(p);
      GatherAppend([p], rest);
      assert cs[..MAXPERPACKET] + cs[MAXPERPACKET..] == cs;
    }
  }

  lemma {:induction false} GatherApps(apps: seq<App>)
    requires forall a | a in apps :: AppOk(a)
    ensures forall p | p in AppPackets(apps) :: Readable(p)
    ensures Gather(AppPackets(apps)) == NOTHING.(apps := apps)
  {
    hide Version, HasPadding, AnnouncedSize, AppOk, AppBytes;
    AppsBuilt(apps);
    BuiltIsReadable(AppPackets(apps));
    if apps != [] {
      AppRoundTrip(apps[0]);
      GatherApps(apps[1..]);
      assert [apps[0]] + apps[1..] == apps;
      assert AppPackets(apps)[1..] == AppPackets(apps[1..]);
    }
  }

  lemma {:induction false} GatherByes(byes: seq<Bye>)
    requires forall b | b in byes :: ByeOk(b)
    ensures forall p | p in ByePackets(byes) :: Readable(p)
    ensures Gather(ByePackets(byes)) == NOTHING.(byes := byes)
  {
    hide Version, HasPadding, AnnouncedSize, ByeOk, ByeBytes;
    ByesBuilt(byes);
    BuiltIsReadable(ByePackets(byes));
    if byes != [] {
      ByeRoundTrip(byes[0]);
      GatherByes(byes[1..]);
      assert [byes[0]] + byes[1..] == byes;
      assert ByePackets(byes)[1..] == ByePackets(byes[1..]);
    }
  }

  lemma FirstReport(c: Content)
    requires ContentOk(c)
    ensures
      var p := Packets(c)[0];
      |p| >= 8 && U32(p, 4) == c.ssrc && (Type(p) == SR <==> c.info.Some?)
      && (c.info.Some? ==> |p| >= 28 && ReadInfo(p, 8) == c.info.value)
  {
    hide U32, ReadInfo, SdesPackets, AppPackets, ByePackets, ReportPacket;
    var bs := if |c.blocks| <= MAXPERPACKET then c.blocks else c.blocks[..MAXPERPACKET];
    ReportPacketRead(c.ssrc, c.info, bs);
  }

  /** Report blocks (their loss cut to 24 bits), SDES chunks with all their items, APP packets and BYE
      packets come back in order, and the first packet carries the sender. */
  lemma ValuesSurvive(c: Content)
    requires ContentOk(c)
    ensures forall p | p in Packets(c) :: Readable(p)
    ensures Gather(Packets(c)) == Gathered(CutAll(c.blocks), c.chunks, c.apps, c.byes)
  {
    hide Readable, Gather, CutAll, ReportPackets, SdesPackets, AppPackets, ByePackets, AppOk, ByeOk, ChunksOk;
    var r, s := ReportPackets(c.ssrc, c.info, c.blocks), SdesPackets(c.chunks);
    var a, b := AppPackets(c.apps), ByePackets(c.byes);
    GatherReports(c.ssrc, c.info, c.blocks);
    GatherSdesPackets(c.chunks);
    GatherApps(c.apps);
    GatherByes(c.byes);
    GatherAppend(r, s);
    GatherAppend(r + s, a);
    GatherAppend(r + s + a, b);
  }

  /** With every loss count in [-2^23, 2^23) nothing is lost at all, and only then. */
  lemma BlocksSurviveExactly(bs: seq<ReportBlock>)
    ensures CutAll(bs) == bs <==> forall i | 0 <= i < |bs| :: -0x80_0000 <= bs[i].packetsLost < 0x80_0000
  {
    forall i | 0 <= i < |bs|
      ensures CutAll(bs)[i] == bs[i] <==> -0x80_0000 <= bs[i].packetsLost < 0x80_0000
    {
      Cut24Exact(bs[i]);
    }
  }
}
