/** RTP and RTCP packets on a TCP connection, from the packet that is built to the packet that is parsed:
    which side a frame is handed to, and what arrives there. */
module TcpPackets {
  import opened Bytes
  import opened TcpFraming
  import opened CompoundFormat
  import opened CompoundRoundTrip
  import opened PacketOrder
  import RtcpPackets
  import RtpPacket
  import CP = CompoundPacket

  // ---------------------------------------------------------------- which side

  lemma CompoundStarts(c: Content)
    requires ContentOk(c)
    ensures |CompoundBytes(c)| > 4 && CompoundBytes(c)[1] in {RtcpPackets.SR, RtcpPackets.RR}
  {
    hide ReportPackets, SdesPackets, AppPackets, ByePackets, Built, Readable, ContentOk;
    PacketsBuilt(c);
    FirstReport(c);
    assert Packets(c) == [Packets(c)[0]] + Packets(c)[1..];
    ConcatCons(Packets(c)[0], Packets(c)[1..]);
  }

  /** Every compound packet is handed to the RTCP side. */
  lemma CompoundIsRtcp(c: Content)
    requires ContentOk(c)
    ensures Classify(CompoundBytes(c)) == RawPacket(CompoundBytes(c), false)
  {
    hide CompoundBytes, ContentOk;
    CompoundStarts(c);
  }

  lemma SecondByte(f: RtpPacket.Fields)
    requires RtpPacket.Encodable(f)
    ensures |RtpPacket.Encode(f)| >= 12
    ensures RtpPacket.Encode(f)[1] == (if f.marker then 128 else 0) + f.payloadType
  {
  }

  /** A packet that `BuildPacket` accepts is handed to the RTP side, exactly unless its marker is set and
      its payload type is 74, 75 or 76: then it looks like an SDES, BYE or APP packet. */
  lemma RtpIsRtp(f: RtpPacket.Fields)
    requires RtpPacket.Encodable(f) && f.payloadType !in {72, 73}
    ensures Classify(RtpPacket.Encode(f)).data == RtpPacket.Encode(f)
    ensures Classify(RtpPacket.Encode(f)).isRtp <==> !(f.marker && f.payloadType in {74, 75, 76})
  {
    hide RtpPacket.Encode;
    SecondByte(f);
  }

  /** A packet with payload type 75 and the marker goes to the RTCP side, though it is a good RTP packet. */
  lemma MarkedPacketLost(f: RtpPacket.Fields)
    requires f == RtpPacket.Fields(true, 75, 1, 160, 99, [], RtpPacket.NoExtension, [1, 2, 3])
    ensures RtpPacket.Encodable(f) && RtpPacket.ExtensionHeaderReadable(RtpPacket.Encode(f))
    ensures RtpPacket.Parse(RtpPacket.Encode(f)) == RtpPacket.Valid(f, 0)
    ensures !Classify(RtpPacket.Encode(f)).isRtp
  {
    hide RtpPacket.Encode, RtpPacket.Parse;
    RtpPacket.ParseEncode(f);
    RtpIsRtp(f);
  }

  // ---------------------------------------------------------------- end to end

  /** One packet as an application sends it. */
  datatype Sending = Rtp(fields: RtpPacket.Fields) | Rtcp(content: Content)

  /** What is built without error and fits a frame. */
  predicate Sendable(s: Sending) {
    match s
    case Rtp(f) =>
      RtpPacket.Encodable(f) && f.payloadType !in {72, 73} && |RtpPacket.Encode(f)| <= MAXPACKSIZE
    case Rtcp(c) => ContentOk(c) && |CompoundBytes(c)| <= MAXPACKSIZE
  }

  function Sent(s: Sending): (frame: seq<byte>)
    requires Sendable(s)
    ensures |frame| <= MAXPACKSIZE
  {
    match s
    case Rtp(f) => RtpPacket.Encode(f)
    case Rtcp(c) => CompoundBytes(c)
  }

  function SentAll(ss: seq<Sending>): (frames: seq<seq<byte>>)
    requires forall s | s in ss :: Sendable(s)
    ensures |frames| == |ss| && forall f | f in frames :: |f| <= MAXPACKSIZE
  {
    seq(|ss|, i requires 0 <= i < |ss| => Sent(ss[i]))
  }

  /** What arrives of a packet: an RTP packet with its fields, on the RTP side exactly unless it looks
      like RTCP; or a compound packet on the RTCP side, cut into its packets, each saying what it should. */
  ghost predicate Arrives(r: RawPacket, s: Sending) {
    match s
    case Rtp(f) =>
      && RtpPacket.ExtensionHeaderReadable(r.data) && RtpPacket.Parse(r.data) == RtpPacket.Valid(f, 0)
      && (r.isRtp <==> !(f.marker && f.payloadType in {74, 75, 76}))
    case Rtcp(c) =>
      && !r.isRtp && CP.Parse(r.data).Some?
      && |CP.Parse(r.data).value| == Reports(c) + Descriptions(c) + |c.apps| + |c.byes|
      && forall i | 0 <= i < |CP.Parse(r.data).value| :: Says(CP.Parse(r.data).value[i], c, i)
  }

  lemma OneArrives(s: Sending)
    requires Sendable(s)
    ensures Arrives(Classify(Sent(s)), s)
  {
    hide RtpPacket.Encode, RtpPacket.Parse, CompoundBytes, CP.Parse, Says, ContentOk;
    match s {
      case Rtp(f) =>
        RtpIsRtp(f);
        RtpPacket.ParseEncode(f);
      case Rtcp(c) =>
        CompoundIsRtcp(c);
        EachPacket(c);
    }
  }

  /** Packets sent over a connection, whatever pieces the stream is cut into on its way: each arrives as
      one frame, in order, is handed to its side and parsed into what was built. */
  lemma BuiltSentReceivedParsed(ss: seq<Sending>, chunks: seq<seq<byte>>)
    requires (forall s | s in ss :: Sendable(s)) && Concat(chunks) == EncodeAll(SentAll(ss))
    ensures
      var d := PollEach([], chunks);
      var got := ClassifyAll(d.frames);
      d.rest == [] && |got| == |ss| && forall i | 0 <= i < |ss| :: Arrives(got[i], ss[i])
  {
    hide Sent, Arrives, Classify, Sendable, EncodeAll, PollEach;
    SentIsReceived(SentAll(ss), chunks);
    forall i | 0 <= i < |ss|
      ensures Arrives(Classify(SentAll(ss)[i]), ss[i])
    {
      assert ss[i] in ss;
      OneArrives(ss[i]);
    }
  }
}
