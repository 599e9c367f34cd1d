/** What the RTCP compound packet builder writes, as a function of what was added to it: splitting
    at 31 report blocks or SDES chunks, the size formulas, and what a receiver reads back. */
module CompoundFormat {
  import opened Bytes
  import opened RtcpPackets
  import opened SdesPacket
  import SdesReader
  import CP = CompoundPacket

  const MAXPERPACKET: nat := 31

  /** Everything that goes into one compound packet; `info` makes the first report an SR. */
  datatype Content = Content(ssrc: uint32, info: Option<SenderInfo>, blocks: seq<ReportBlock>, chunks: seq<Chunk>,
                             apps: seq<App>, byes: seq<Bye>)

  predicate ContentOk(c: Content) {
    ChunksOk(c.chunks) && (forall a | a in c.apps :: AppOk(a)) && forall b | b in c.byes :: ByeOk(b)
  }

  // ---------------------------------------------------------------- the packets

  function ReportPacket(ssrc: uint32, info: Option<SenderInfo>, blocks: seq<ReportBlock>): seq<byte>
    requires |blocks| <= MAXPERPACKET
  {
    var i := if info.Some? then InfoBytes(info.value) else [];
    Header(|blocks|, if info.Some? then SR else RR, 4 + 4 + |i| + 24 * |blocks|) + BE32(ssrc) + i + BlocksBytes(blocks)
  }

  /** At least one report; sender information only in the first. */
  function ReportPackets(ssrc: uint32, info: Option<SenderInfo>, blocks: seq<ReportBlock>): seq<seq<byte>>
    decreases |blocks|
  {
    if |blocks| <= MAXPERPACKET then [ReportPacket(ssrc, info, blocks)]
    else [ReportPacket(ssrc, info, blocks[..MAXPERPACKET])] + ReportPackets(ssrc, None, blocks[MAXPERPACKET..])
  }

  function SizeOfChunks(cs: seq<Chunk>): nat {
    if cs == [] then 0 else ChunkSize(cs[0]) + SizeOfChunks(cs[1..])
  }

  function SdesBytes(cs: seq<Chunk>): seq<byte>
    requires |cs| <= MAXPERPACKET && ChunksOk(cs)
  {
    Header(|cs|, SDES, 4 + SizeOfChunks(cs)) + ChunksBytes(cs)
  }

  function SdesPackets(cs: seq<Chunk>): seq<seq<byte>>
    requires ChunksOk(cs)
    decreases |cs|
  {
    if cs == [] then []
    else if |cs| <= MAXPERPACKET then [SdesBytes(cs)]
    else [SdesBytes(cs[..MAXPERPACKET])] + SdesPackets(cs[MAXPERPACKET..])
  }

  function AppPackets(apps: seq<App>): seq<seq<byte>>
    requires forall a | a in apps :: AppOk(a)
  {
    if apps == [] then [] else [AppBytes(apps[0])] + AppPackets(apps[1..])
  }

  function ByePackets(byes: seq<Bye>): seq<seq<byte>>
    requires forall b | b in byes :: ByeOk(b)
  {
    if byes == [] then [] else [ByeBytes(byes[0])] + ByePackets(byes[1..])
  }

  function Packets(c: Content): seq<seq<byte>>
    requires ContentOk(c)
  {
    ReportPackets(c.ssrc, c.info, c.blocks) + SdesPackets(c.chunks) + AppPackets(c.apps) + ByePackets(c.byes)
  }

  function CompoundBytes(c: Content): seq<byte>
    requires ContentOk(c)
  {
    Concat(Packets(c))
  }

  // ---------------------------------------------------------------- the size formulas

  /** Packets of at most 31 entries needed for `n` entries. */
  function PacketsFor(n: nat): nat {
    if n % 31 != 0 then n / 31 + 1 else n / 31
  }

  /** `Report::NeededBytes` for a started report with `n` blocks. */
  function ReportNeeded(isSR: bool, n: nat): nat {
    24 * n + 8 * (if n == 0 then 1 else PacketsFor(n)) + if isSR then 20 else 0
  }

  /** `SDES::NeededBytes` */
  function SdesNeeded(cs: seq<Chunk>): nat {
    SizeOfChunks(cs) + 4 * PacketsFor(|cs|)
  }

  lemma PacketsForStep(n: nat)
    requires n > 31
    ensures PacketsFor(n) == 1 + PacketsFor(n - 31)
  {
  }

  lemma {:induction false} ReportSizeExact(ssrc: uint32, info: Option<SenderInfo>, blocks: seq<ReportBlock>)
    ensures |Concat(ReportPackets(ssrc, info, blocks))| == ReportNeeded(info.Some?, |blocks|)
    decreases |blocks|
  {
    hide Header, BE32, InfoBytes, BlocksBytes, PacketsFor;
    if |blocks| <= MAXPERPACKET {
      ConcatOne(ReportPacket(ssrc, info, blocks));
      SmallPacketsFor(|blocks|);
    } else {
      ReportSizeExact(ssrc, None, blocks[MAXPERPACKET..]);
      ConcatCons(ReportPacket(ssrc, info, blocks[..MAXPERPACKET]), ReportPackets(ssrc, None, blocks[MAXPERPACKET..]));
      PacketsForStep(|blocks|);
    }
  }

  lemma SmallPacketsFor(n: nat)
    requires n <= 31
    ensures PacketsFor(n) == if n == 0 then 0 else 1
  {
  }

  lemma ConcatCons<T>(p: seq<T>, ps: seq<seq<T>>)
    ensures Concat([p] + ps) == p + Concat(ps)
  {
    assert ([p] + ps)[1..] == ps;
  }

  lemma {:induction false} SizeOfChunksIs(cs: seq<Chunk>)
    requires ChunksOk(cs)
    ensures |ChunksBytes(cs)| == SizeOfChunks(cs) && SizeOfChunks(cs) % 4 == 0
  {
    if cs != [] {
      SizeOfChunksIs(cs[1..]);
    }
  }

  lemma {:induction false} SizeOfChunksSplit(cs: seq<Chunk>, k: nat)
    requires k <= |cs|
    ensures SizeOfChunks(cs) == SizeOfChunks(cs[..k]) + SizeOfChunks(cs[k..])
    decreases k
  {
    if k == 0 {
      assert cs[k..] == cs;
    } else {
      SizeOfChunksSplit(cs[1..], k - 1);
      assert cs[..k][1..] == cs[1..][..k - 1] && cs[k..] == cs[1..][k - 1..];
    }
  }

  lemma {:induction false} SdesSizeExact(cs: seq<Chunk>)
    requires ChunksOk(cs)
    ensures |Concat(SdesPackets(cs))| == SdesNeeded(cs)
    decreases |cs|
  {
    hide Header, ChunksBytes, PacketsFor;
    SizeOfChunksIs(cs);
    SmallPacketsFor(0);
    if cs == [] {
    } else if |cs| <= MAXPERPACKET {
      ConcatOne(SdesBytes(cs));
      SmallPacketsFor(|cs|);
    } else {
      SizeOfChunksSplit(cs, MAXPERPACKET);
      SizeOfChunksIs(cs[..MAXPERPACKET]);
      SdesSizeExact(cs[MAXPERPACKET..]);
      ConcatCons(SdesBytes(cs[..MAXPERPACKET]), SdesPackets(cs[MAXPERPACKET..]));
      PacketsForStep(|cs|);
    }
  }

  function TotalSize(ps: seq<seq<byte>>): nat {
    |Concat(ps)|
  }

  /** The bytes written are exactly what the builder's formulas say. */
  lemma SizeExact(c: Content)
    requires ContentOk(c)
    ensures |CompoundBytes(c)| == ReportNeeded(c.info.Some?, |c.blocks|) + SdesNeeded(c.chunks)
                                  + TotalSize(AppPackets(c.apps)) + TotalSize(ByePackets(c.byes))
  {
    hide ReportNeeded, SdesNeeded, Concat, ReportPackets, SdesPackets, AppPackets, ByePackets;
    var r, s := ReportPackets(c.ssrc, c.info, c.blocks), SdesPackets(c.chunks);
    var a, b := AppPackets(c.apps), ByePackets(c.byes);
    ReportSizeExact(c.ssrc, c.info, c.blocks);
    SdesSizeExact(c.chunks);
    ConcatAppend(r, s);
    ConcatAppend(r + s, a);
    ConcatAppend(r + s + a, b);
  }

  // ---------------------------------------------------------------- every packet is well formed

  /** A packet without padding, of known format, whose length field is right if it fits 16 bits. */
  ghost predicate Built(p: seq<byte>) {
    && |p| >= 4 && |p| % 4 == 0 && Version(p) == 2 && !HasPadding(p) && CP.Known(p)
    && (AnnouncedSize(p) == |p| <==> |p| <= 0x4_0000)
  }

  lemma ReportPacketRead(ssrc: uint32, info: Option<SenderInfo>, blocks: seq<ReportBlock>)
    requires |blocks| <= MAXPERPACKET
    ensures
      var p := ReportPacket(ssrc, info, blocks);
      && |p| == 8 + (if info.Some? then 20 else 0) + 24 * |blocks|
      && Built(p) && Type(p) == (if info.Some? then SR else RR) && Count(p) == |blocks|
      && U32(p, 4) == ssrc && (info.Some? ==> ReadInfo(p, 8) == info.value)
      && ReadBlocks(p, BlocksAt(Type(p)), |blocks|) == CutAll(blocks)
  {
    hide Header, BE32, InfoBytes, BlocksBytes, U32, U16, ReadInfo, ReadBlocks, CutAll, AnnouncedSize;
    var p, i := ReportPacket(ssrc, info, blocks), if info.Some? then InfoBytes(info.value) else [];
    var h := Header(|blocks|, if info.Some? then SR else RR, 8 + |i| + 24 * |blocks|);
    FourParts(h, BE32(ssrc), i, BlocksBytes(blocks));
    HeaderRead(p, |blocks|, if info.Some? then SR else RR, |p|);
    ReadSlice(p, 4, BE32(ssrc));
    RoundTrip32(ssrc);
    if info.Some? {
      InfoRoundTrip(p, 8, info.value);
    }
    assert p[8 + |i|..8 + |i| + 24 * |blocks|] == p[8 + |i|..];
    BlocksRoundTrip(p, 8 + |i|, blocks);
  }

  lemma SdesBytesRead(cs: seq<Chunk>)
    requires |cs| <= MAXPERPACKET && ChunksOk(cs)
    ensures
      var p := SdesBytes(cs);
      && Built(p) && Type(p) == SDES && SdesReader.ReadSdes(p) == Some(cs)
  {
    hide Header, ChunksBytes, ReadChunks, AnnouncedSize;
    var p := SdesBytes(cs);
    SizeOfChunksIs(cs);
    assert p[..4] == Header(|cs|, SDES, 4 + SizeOfChunks(cs)) && p[4..] == ChunksBytes(cs);
    HeaderRead(p, |cs|, SDES, |p|);
    ReadChunksBytes(p, 4, cs);
    assert p[..|p|] == p;
  }

  lemma AppBuilt(a: App)
    requires AppOk(a)
    ensures Built(AppBytes(a)) && Type(AppBytes(a)) == APP
  {
    hide AnnouncedSize, Version, HasPadding;
    AppRoundTrip(a);
  }

  lemma ByeBuilt(b: Bye)
    requires ByeOk(b)
    ensures Built(ByeBytes(b)) && Type(ByeBytes(b)) == BYE
  {
    hide AnnouncedSize, Version, HasPadding;
    ByeRoundTrip(b);
  }

  ghost predicate AllBuilt(ps: seq<seq<byte>>) {
    forall p | p in ps :: Built(p)
  }

  lemma {:induction false} ReportsBuilt(ssrc: uint32, info: Option<SenderInfo>, blocks: seq<ReportBlock>)
    ensures AllBuilt(ReportPackets(ssrc, info, blocks))
    ensures Built(ReportPackets(ssrc, info, blocks)[0]) && Type(ReportPackets(ssrc, info, blocks)[0]) in {SR, RR}
    decreases |blocks|
  {
    hide Built, Type, ReportPacket;
    if |blocks| <= MAXPERPACKET {
      ReportPacketRead(ssrc, info, blocks);
    } else {
      ReportPacketRead(ssrc, info, blocks[..MAXPERPACKET]);
      ReportsBuilt(ssrc, None, blocks[MAXPERPACKET..]);
    }
  }

  lemma {:induction false} SdesBuilt(cs: seq<Chunk>)
    requires ChunksOk(cs)
    ensures AllBuilt(SdesPackets(cs))
    decreases |cs|
  {
    hide Built, SdesBytes;
    if cs == [] {
    } else if |cs| <= MAXPERPACKET {
      SdesBytesRead(cs);
    } else {
      SdesBytesRead(cs[..MAXPERPACKET]);
      SdesBuilt(cs[MAXPERPACKET..]);
    }
  }

  lemma {:induction false} AppsBuilt(apps: seq<App>)
    requires forall a | a in apps :: AppOk(a)
    ensures AllBuilt(AppPackets(apps))
  {
    hide Built, AppBytes, AppOk;
    if apps != [] {
      AppBuilt(apps[0]);
      AppsBuilt(apps[1..]);
    }
  }

  lemma {:induction false} ByesBuilt(byes: seq<Bye>)
    requires forall b | b in byes :: ByeOk(b)
    ensures AllBuilt(ByePackets(byes))
  {
    hide Built, ByeBytes, ByeOk;
    if byes != [] {
      ByeBuilt(byes[0]);
      ByesBuilt(byes[1..]);
    }
  }

  lemma PacketsBuilt(c: Content)
    requires ContentOk(c)
    ensures Packets(c) != [] && AllBuilt(Packets(c)) && Built(Packets(c)[0]) && Type(Packets(c)[0]) in {SR, RR}
  {
    hide Built, Type, ReportPackets, SdesPackets, AppPackets, ByePackets;
    ReportsBuilt(c.ssrc, c.info, c.blocks);
    SdesBuilt(c.chunks);
    AppsBuilt(c.apps);
    ByesBuilt(c.byes);
    assert ReportPackets(c.ssrc, c.info, c.blocks) != [] by {
      ReportsNonempty(c.ssrc, c.info, c.blocks);
    }
  }

  lemma ReportsNonempty(ssrc: uint32, info: Option<SenderInfo>, blocks: seq<ReportBlock>)
    ensures ReportPackets(ssrc, info, blocks) != []
  {
  }

  /** What is built can be parsed: the parser finds exactly the packets the builder recorded, all of
      known format, if and only if every packet is short enough for its 16-bit length field. */
  lemma BuildThenParse(c: Content)
    requires ContentOk(c)
    ensures CP.Parse(CompoundBytes(c)) == Some(Packets(c)) <==> forall p | p in Packets(c) :: |p| <= 0x4_0000
    ensures forall p | p in Packets(c) :: |p| >= 4 && CP.Known(p)
  {
    hide Packets, Version, HasPadding, AnnouncedSize;
    PacketsBuilt(c);
    var ps := Packets(c);
    CP.ParseExact(CompoundBytes(c), ps);
    forall i | 0 <= i < |ps|
      ensures CP.PacketOk(ps[i]) <==> |ps[i]| <= 0x4_0000
      ensures !HasPadding(ps[i])
    {
      assert Built(ps[i]);
    }
    if CP.PacketsOk(ps) {
      forall p | p in ps
        ensures |p| <= 0x4_0000
      {
        var i :| 0 <= i < |ps| && ps[i] == p;
        assert CP.PacketOk(ps[i]);
      }
    }
  }

  lemma {:induction false} PartsAreShorter(ps: seq<seq<byte>>)
    ensures forall p | p in ps :: |p| <= |Concat(ps)|
  {
    if ps != [] {
      PartsAreShorter(ps[1..]);
      assert ps == [ps[0]] + ps[1..];
      ConcatCons(ps[0], ps[1..]);
    }
  }

  /** Whatever stays within 262144 bytes is read back as the very list of packets that was built. */
  lemma SmallEnoughParses(c: Content)
    requires ContentOk(c) && |CompoundBytes(c)| <= 0x4_0000
    ensures CP.Parse(CompoundBytes(c)) == Some(Packets(c))
  {
    hide Packets, CP.Parse;
    PartsAreShorter(Packets(c));
    BuildThenParse(c);
  }
}
