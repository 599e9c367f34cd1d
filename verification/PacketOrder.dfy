/** The order of the packets inside a compound packet, and what each of them says, read off the bytes a
    receiver gets: section 6.1 of RFC 3550. */
module PacketOrder {
  import opened Bytes
  import opened RtcpPackets
  import opened SdesPacket
  import opened CompoundFormat
  import SdesReader
  import CP = CompoundPacket

  /** Reports come first, then SDES, then APP, then BYE. */
  function Rank(packetType: byte): nat {
    if packetType in {SR, RR} then 0 else if packetType == SDES then 1 else if packetType == APP then 2 else 3
  }

  /** How many of the kinds of packet there are: reports, at least one, and SDES packets hold 31 entries. */
  function Reports(c: Content): nat {
    if |c.blocks| == 0 then 1 else (|c.blocks| + 30) / 31
  }

  function Descriptions(c: Content): nat {
    (|c.chunks| + 30) / 31
  }

  /** Part `i` of a list cut into pieces of 31. */
  function Piece<T>(s: seq<T>, i: nat): seq<T> {
    if |s| <= 31 * i then [] else if |s| <= 31 * (i + 1) then s[31 * i..] else s[31 * i..31 * (i + 1)]
  }

  lemma PieceLater<T>(s: seq<T>, i: nat)
    requires |s| > 31
    ensures Piece(s, i + 1) == Piece(s[31..], i)
  {
    if |s| > 31 * (i + 2) {
      assert s[31..][31 * i..31 * (i + 1)] == s[31 * (i + 1)..31 * (i + 2)];
    } else if |s| > 31 * (i + 1) {
      assert s[31..][31 * i..] == s[31 * (i + 1)..];
    }
  }

  lemma OnlyPiece<T>(s: seq<T>)
    requires |s| <= 31
    ensures Piece(s, 0) == s
  {
  }

  // ---------------------------------------------------------------- one packet

  /** A report of ours with these blocks; the first one may carry sender information. */
  ghost predicate SaysReport(p: seq<byte>, ssrc: uint32, info: Option<SenderInfo>, blocks: seq<ReportBlock>) {
    && |p| >= 8 && CP.Known(p) && Type(p) == (if info.Some? then SR else RR) && U32(p, 4) == ssrc
    && Count(p) == |blocks| <= 31 && ReadBlocks(p, BlocksAt(Type(p)), Count(p)) == CutAll(blocks)
    && (info.Some? ==> |p| >= 28 && ReadInfo(p, 8) == info.value)
  }

  ghost predicate SaysChunks(p: seq<byte>, cs: seq<Chunk>) {
    |p| >= 4 && CP.Known(p) && Type(p) == SDES && SdesReader.ReadSdes(p) == Some(cs)
  }

  ghost predicate SaysApp(p: seq<byte>, a: App) {
    |p| >= 4 && CP.Known(p) && Type(p) == APP && ReadApp(p) == a
  }

  ghost predicate SaysBye(p: seq<byte>, b: Bye) {
    |p| >= 4 && CP.Known(p) && Type(p) == BYE && ReadBye(p) == b
  }

  /** What packet `i` of the compound packet says. */
  ghost predicate Says(p: seq<byte>, c: Content, i: nat) {
    var r, s := Reports(c), Reports(c) + Descriptions(c);
    if i < r then SaysReport(p, c.ssrc, if i == 0 then c.info else None, Piece(c.blocks, i))
    else if i < s then SaysChunks(p, Piece(c.chunks, i - r))
    else if i < s + |c.apps| then SaysApp(p, c.apps[i - s])
    else i < s + |c.apps| + |c.byes| && SaysBye(p, c.byes[i - s - |c.apps|])
  }

  // ---------------------------------------------------------------- each kind by itself

  lemma ReportSays(ssrc: uint32, info: Option<SenderInfo>, blocks: seq<ReportBlock>)
    requires |blocks| <= MAXPERPACKET
    ensures SaysReport(ReportPacket(ssrc, info, blocks), ssrc, info, blocks)
  {
    hide ReportPacket, ReadBlocks, CutAll, ReadInfo, AnnouncedSize;
    ReportPacketRead(ssrc, info, blocks);
  }

  ghost predicate AllReports(ps: seq<seq<byte>>, ssrc: uint32, info: Option<SenderInfo>, blocks: seq<ReportBlock>) {
    && |ps| == (if |blocks| == 0 then 1 else (|blocks| + 30) / 31)
    && forall i | 0 <= i < |ps| :: SaysReport(ps[i], ssrc, if i == 0 then info else None, Piece(blocks, i))
  }

  lemma {:induction false} ReportsSay(ssrc: uint32, info: Option<SenderInfo>, blocks: seq<ReportBlock>)
    ensures AllReports(ReportPackets(ssrc, info, blocks), ssrc, info, blocks)
    decreases |blocks|
  {
    hide SaysReport, ReportPacket, AllReports;
    if |blocks| <= MAXPERPACKET {
      ReportSays(ssrc, info, blocks);
      OneReport(ReportPacket(ssrc, info, blocks), ssrc, info, blocks);
    } else {
      ReportSays(ssrc, info, blocks[..MAXPERPACKET]);
      ReportsSay(ssrc, None, blocks[MAXPERPACKET..]);
      MoreReports(ReportPacket(ssrc, info, blocks[..MAXPERPACKET]), ReportPackets(ssrc, None, blocks[MAXPERPACKET..]),
                  ssrc, info, blocks);
    }
  }

  lemma OneReport(p: seq<byte>, ssrc: uint32, info: Option<SenderInfo>, blocks: seq<ReportBlock>)
    requires |blocks| <= MAXPERPACKET && SaysReport(p, ssrc, info, blocks)
    ensures AllReports([p], ssrc, info, blocks)
  {
    hide SaysReport, Piece;
    OnlyPiece(blocks);
  }

  lemma MoreReports(p: seq<byte>, rest: seq<seq<byte>>, ssrc: uint32, info: Option<SenderInfo>,
      blocks: seq<ReportBlock>)
    requires |blocks| > MAXPERPACKET && SaysReport(p, ssrc, info, blocks[..MAXPERPACKET])
    requires AllReports(rest, ssrc, None, blocks[MAXPERPACKET..])
    ensures AllReports([p] + rest, ssrc, info, blocks)
  {
    hide SaysReport, Piece;
    forall i | 0 <= i < |rest|
      ensures SaysReport(rest[i], ssrc, None, Piece(blocks, i + 1))
    {
      PieceLater(blocks, i);
      assert SaysReport(rest[i], ssrc, None, Piece(blocks[MAXPERPACKET..], i));
    }
    FirstPiece(blocks);
  }

  lemma FirstPiece<T>(s: seq<T>)
    requires |s| > 31
    ensures Piece(s, 0) == s[..31]
  {
  }

  lemma {:induction false} ChunksSay(cs: seq<Chunk>)
    requires ChunksOk(cs)
    ensures
      var ps := SdesPackets(cs);
      |ps| == (|cs| + 30) / 31 && forall i | 0 <= i < |ps| :: SaysChunks(ps[i], Piece(cs, i))
    decreases |cs|
  {
    hide SaysChunks, SdesBytes, Piece;
    if cs == [] {
    } else if |cs| <= MAXPERPACKET {
      SdesSays(cs);
      OnlyPiece(cs);
    } else {
      var rest := SdesPackets(cs[MAXPERPACKET..]);
      SdesSays(cs[..MAXPERPACKET]);
      ChunksSay(cs[MAXPERPACKET..]);
      forall i | 0 <= i < |rest|
        ensures SaysChunks(rest[i], Piece(cs, i + 1))
      {
        PieceLater(cs, i);
      }
      FirstPiece(cs);
    }
  }

  lemma SdesSays(cs: seq<Chunk>)
    requires |cs| <= MAXPERPACKET && ChunksOk(cs)
    ensures SaysChunks(SdesBytes(cs), cs)
  {
    hide SdesBytes, AnnouncedSize, Version, HasPadding;
    SdesBytesRead(cs);
  }

  lemma {:induction false} AppsSay(apps: seq<App>)
    requires forall a | a in apps :: AppOk(a)
    ensures
      var ps := AppPackets(apps);
      |ps| == |apps| && forall i | 0 <= i < |ps| :: SaysApp(ps[i], apps[i])
  {
    hide AppBytes, AppOk, AnnouncedSize, Version, HasPadding;
    if apps != [] {
      AppRoundTrip(apps[0]);
      AppsSay(apps[1..]);
    }
  }

  lemma {:induction false} ByesSay(byes: seq<Bye>)
    requires forall b | b in byes :: ByeOk(b)
    ensures
      var ps := ByePackets(byes);
      |ps| == |byes| && forall i | 0 <= i < |ps| :: SaysBye(ps[i], byes[i])
  {
    hide ByeBytes, ByeOk, AnnouncedSize, Version, HasPadding;
    if byes != [] {
      ByeRoundTrip(byes[0]);
      ByesSay(byes[1..]);
    }
  }

  // ---------------------------------------------------------------- all of them

  lemma PacketsSay(c: Content)
    requires ContentOk(c)
    ensures |Packets(c)| == Reports(c) + Descriptions(c) + |c.apps| + |c.byes|
    ensures forall i | 0 <= i < |Packets(c)| :: Says(Packets(c)[i], c, i)
  {
    hide SaysReport, SaysChunks, SaysApp, SaysBye, ReportPackets, SdesPackets, AppPackets, ByePackets, AppOk, ByeOk,
      ChunksOk;
    ReportsSay(c.ssrc, c.info, c.blocks);
    ChunksSay(c.chunks);
    AppsSay(c.apps);
    ByesSay(c.byes);
  }

  /** What a receiver finds in a compound packet of at most 262144 bytes: as many packets as the parts
      take, 31 blocks or chunks to a packet, and which part is in which packet. */
  lemma EachPacket(c: Content)
    requires ContentOk(c) && |CompoundBytes(c)| <= 0x4_0000
    ensures
      var got := CP.Parse(CompoundBytes(c));
      && got.Some? && |got.value| == Reports(c) + Descriptions(c) + |c.apps| + |c.byes|
      && forall i | 0 <= i < |got.value| :: Says(got.value[i], c, i)
  {
    hide Says, Packets, CP.Parse;
    SmallEnoughParses(c);
    PacketsSay(c);
  }

  lemma RankOf(p: seq<byte>, c: Content, i: nat)
    requires Says(p, c, i)
    ensures
      var r, s := Reports(c), Reports(c) + Descriptions(c);
      |p| >= 4 && Rank(Type(p)) == if i < r then 0 else if i < s then 1 else if i < s + |c.apps| then 2 else 3
    ensures i >= Reports(c) + Descriptions(c) + |c.apps| ==> Type(p) == BYE
  {
  }

  ghost predicate KindsOrdered(ps: seq<seq<byte>>) {
    && ps != [] && (forall i | 0 <= i < |ps| :: |ps[i]| >= 4) && Type(ps[0]) in {SR, RR}
    && (forall i, j | 0 <= i < j < |ps| :: Rank(Type(ps[i])) <= Rank(Type(ps[j])))
    && (forall i, j | 0 <= i < j < |ps| :: Type(ps[i]) == BYE ==> Type(ps[j]) == BYE)
  }

  /** All reports come first, then all SDES packets, then all APP packets, then all BYE packets: no packet
      of an earlier kind follows one of a later kind, and nothing but a BYE follows a BYE. */
  lemma KindsInOrder(c: Content)
    requires ContentOk(c) && |CompoundBytes(c)| <= 0x4_0000
    ensures
      var got := CP.Parse(CompoundBytes(c));
      got.Some? && KindsOrdered(got.value) && (c.byes != [] ==> Type(got.value[|got.value| - 1]) == BYE)
  {
    hide Says, CP.Parse, CompoundBytes, ContentOk, Type;
    EachPacket(c);
    var ps := CP.Parse(CompoundBytes(c)).value;
    forall i | 0 <= i < |ps|
      ensures
        var r, s := Reports(c), Reports(c) + Descriptions(c);
        && |ps[i]| >= 4
        && Rank(Type(ps[i])) == (if i < r then 0 else if i < s then 1 else if i < s + |c.apps| then 2 else 3)
        && (i >= s + |c.apps| ==> Type(ps[i]) == BYE)
    {
      RankOf(ps[i], c, i);
    }
  }
}
