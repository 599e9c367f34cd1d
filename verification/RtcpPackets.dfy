/** The RTCP packet formats other than SDES (sections 6.4, 6.6 and 6.7 of RFC 3550): what each
    packet class accepts as a known format, and what its readers return. */
module RtcpPackets {
  import opened Bytes

  const SR: byte := 200
  const RR: byte := 201
  const SDES: byte := 202
  const BYE: byte := 203
  const APP: byte := 204

  // ---------------------------------------------------------------- the common header

  function Version(s: seq<byte>): nat
    requires |s| >= 4
  {
    s[0] / 0x40
  }

  predicate HasPadding(s: seq<byte>)
    requires |s| >= 4
  {
    s[0] / 0x20 % 2 == 1
  }

  function Count(s: seq<byte>): nat
    requires |s| >= 4
  {
    s[0] % 0x20
  }

  function Type(s: seq<byte>): byte
    requires |s| >= 4
  {
    s[1]
  }

  /** The packet size its length field announces. */
  function AnnouncedSize(s: seq<byte>): nat
    requires |s| >= 4
  {
    4 * (U16(s, 2) + 1)
  }

  /** A header without padding; the length field is cut to 16 bits. */
  function Header(count: nat, packetType: byte, size: nat): (h: seq<byte>)
    requires count < 32 && size >= 4
    ensures |h| == 4
  {
    [0x80 + count, packetType] + BE16((size / 4 - 1) % 0x1_0000)
  }

  /** The start of a packet that `Header` wrote. */
  lemma HeaderRead(s: seq<byte>, count: nat, packetType: byte, size: nat)
    requires count < 32 && size >= 4 && size % 4 == 0
    requires |s| >= 4 && s[..4] == Header(count, packetType, size)
    ensures Version(s) == 2 && !HasPadding(s) && Count(s) == count && Type(s) == packetType
    ensures AnnouncedSize(s) == size <==> size <= 0x4_0000
    ensures AnnouncedSize(s) <= 0x4_0000
  {
    hide BE16, U16;
    var words := (size / 4 - 1) % 0x1_0000;
    assert s[..4][0] == 0x80 + count && s[..4][1] == packetType && s[..4][2..4] == BE16(words);
    assert s[2..4] == s[..4][2..4];
    ReadSlice(s, 2, BE16(words));
    RoundTrip16(words);
  }

  /** The size without padding: the last byte counts the padding bytes, a multiple of four that
      leaves something of the packet. */
  function Unpadded(s: seq<byte>): Option<nat>
    requires |s| >= 4
  {
    if !HasPadding(s) then Some(|s|)
    else
      var padcount := s[|s| - 1];
      if padcount % 4 != 0 || padcount >= |s| then None else Some(|s| - padcount)
  }

  /** Padding behind a packet, a multiple of four bytes up to 252 of which the last tells how many, is
      taken off again; and nothing else is taken for padding. */
  lemma PaddingIsTakenOff(s: seq<byte>, pad: seq<byte>)
    requires |s| >= 4 && HasPadding(s + pad) && pad != []
    ensures |pad| % 4 == 0 && pad[|pad| - 1] == |pad| ==> Unpadded(s + pad) == Some(|s|)
    ensures Unpadded(s + pad) == Some(|s|) ==> |pad| % 4 == 0 && pad[|pad| - 1] == |pad|
  {
    assert (s + pad)[|s + pad| - 1] == pad[|pad| - 1];
  }

  /** The padding test with which every packet constructor starts. */
  method StripPadding(data: seq<byte>) returns (ok: bool, len: nat)
    requires |data| >= 4
    ensures ok <==> Unpadded(data).Some?
    ensures ok ==> len == Unpadded(data).value <= |data|
  {
    len := |data|;
    if data[0] / 0x20 % 2 == 1 {
      var padcount := data[|data| - 1];
      if padcount % 4 != 0 {
        return false, len;
      }
      if padcount >= len {
        return false, len;
      }
      len := len - padcount;
    }
    ok := true;
  }

  // ---------------------------------------------------------------- reports

  /** A reception report block; `packetsLost` is a signed 32-bit number. */
  datatype ReportBlock = ReportBlock(ssrc: uint32, fractionLost: byte, packetsLost: int, extHighestSeq: uint32,
                                     jitter: uint32, lsr: uint32, dlsr: uint32)

  function Byte24(x: int): seq<byte> {
    var y := x % 0x100_0000;
    [y / 0x1_0000, y / 0x100 % 0x100, y % 0x100]
  }

  function BlockBytes(b: ReportBlock): (s: seq<byte>)
    ensures |s| == 24
  {
    BE32(b.ssrc) + ([b.fractionLost] + Byte24(b.packetsLost)) + BE32(b.extHighestSeq)
    + BE32(b.jitter) + BE32(b.lsr) + BE32(b.dlsr)
  }

  /** What a signed number becomes in a 24-bit field. */
  function Signed24(x: int): int {
    var y := x % 0x100_0000;
    if y >= 0x80_0000 then y - 0x100_0000 else y
  }

  /** `GetLostPacketCount`: three bytes, sign extended. */
  function LostAt(s: seq<byte>, off: nat): int
    requires off + 3 <= |s|
  {
    var count := s[off] as int * 0x1_0000 + s[off + 1] as int * 0x100 + s[off + 2];
    if count >= 0x80_0000 then count - 0x100_0000 else count
  }

  function ReadBlock(s: seq<byte>, off: nat): ReportBlock
    requires off + 24 <= |s|
  {
    ReportBlock(U32(s, off), s[off + 4], LostAt(s, off + 5), U32(s, off + 8),
                U32(s, off + 12), U32(s, off + 16), U32(s, off + 20))
  }

  function ReadBlocks(s: seq<byte>, off: nat, n: nat): (bs: seq<ReportBlock>)
    requires off + 24 * n <= |s|
    ensures |bs| == n
    decreases n
  {
    if n == 0 then [] else [ReadBlock(s, off)] + ReadBlocks(s, off + 24, n - 1)
  }

  function BlocksBytes(bs: seq<ReportBlock>): (s: seq<byte>)
    ensures |s| == 24 * |bs|
  {
    if bs == [] then [] else BlockBytes(bs[0]) + BlocksBytes(bs[1..])
  }

  function Cut24(b: ReportBlock): ReportBlock {
    b.(packetsLost := Signed24(b.packetsLost))
  }

  /** The 24-bit field keeps a loss count if and only if it lies in [-2^23, 2^23). */
  lemma Cut24Exact(b: ReportBlock)
    ensures Cut24(b) == b <==> -0x80_0000 <= b.packetsLost < 0x80_0000
  {
  }

  lemma LostRoundTrip(s: seq<byte>, off: nat, x: int)
    requires off + 3 <= |s| && s[off..off + 3] == Byte24(x)
    ensures LostAt(s, off) == Signed24(x)
  {
    var t, y := s[off..off + 3], x % 0x100_0000;
    assert s[off] == t[0] && s[off + 1] == t[1] && s[off + 2] == t[2];
    assert y / 0x100 == y / 0x1_0000 * 0x100 + y / 0x100 % 0x100;
  }

  lemma Word(s: seq<byte>, off: nat, at: nat, x: uint32)
    requires off + at + 4 <= |s| && s[off..][at..at + 4] == BE32(x)
    ensures U32(s, off + at) == x
  {
    hide BE32, U32;
    SubSlice(s, off, |s|, at, at + 4);
    ReadSlice(s, off + at, BE32(x));
    RoundTrip32(x);
  }

  /** A report block is read back as written, its loss count cut to 24 bits. */
  lemma BlockRoundTrip(s: seq<byte>, off: nat, b: ReportBlock)
    requires off + 24 <= |s| && s[off..off + 24] == BlockBytes(b)
    ensures ReadBlock(s, off) == Cut24(b)
  {
    var t, r := s[off..], BlockBytes(b);
    assert t[..24] == r;
    assert r[0..4] == BE32(b.ssrc) && r[4] == b.fractionLost && r[5..8] == Byte24(b.packetsLost);
    assert r[8..12] == BE32(b.extHighestSeq) && r[12..16] == BE32(b.jitter) && r[16..20] == BE32(b.lsr);
    assert r[20..24] == BE32(b.dlsr);
    hide BE32, U32, LostAt, Signed24, BlockBytes, Byte24;
    assert t[0..4] == r[0..4] && t[8..12] == r[8..12] && t[12..16] == r[12..16] && t[16..20] == r[16..20];
    assert t[20..24] == r[20..24];
    Word(s, off, 0, b.ssrc);
    Word(s, off, 8, b.extHighestSeq);
    Word(s, off, 12, b.jitter);
    Word(s, off, 16, b.lsr);
    Word(s, off, 20, b.dlsr);
    assert s[off + 4] == r[4];
    assert s[off + 5..off + 8] == r[5..8];
    LostRoundTrip(s, off + 5, b.packetsLost);
  }

  function CutAll(bs: seq<ReportBlock>): seq<ReportBlock> {
    seq(|bs|, i requires 0 <= i < |bs| => Cut24(bs[i]))
  }

  lemma {:induction false} BlocksRoundTrip(s: seq<byte>, off: nat, bs: seq<ReportBlock>)
    requires off + 24 * |bs| <= |s| && s[off..off + 24 * |bs|] == BlocksBytes(bs)
    ensures ReadBlocks(s, off, |bs|) == CutAll(bs)
    decreases |bs|
  {
    hide BlockBytes, ReadBlock;
    if bs != [] {
      SubSlice(s, off, off + 24 * |bs|, 0, 24);
      SubSlice(s, off, off + 24 * |bs|, 24, 24 * |bs|);
      assert s[off..off + 24 * |bs|][..24] == BlockBytes(bs[0]);
      assert s[off..off + 24 * |bs|][24..] == BlocksBytes(bs[1..]);
      BlockRoundTrip(s, off, bs[0]);
      BlocksRoundTrip(s, off + 24, bs[1..]);
    }
  }

  /** Sender information of an SR packet. */
  datatype SenderInfo = SenderInfo(ntpMsw: uint32, ntpLsw: uint32, rtpTimestamp: uint32,
                                   packetCount: uint32, octetCount: uint32)

  function InfoBytes(i: SenderInfo): (s: seq<byte>)
    ensures |s| == 20
  {
    BE32(i.ntpMsw) + BE32(i.ntpLsw) + BE32(i.rtpTimestamp) + BE32(i.packetCount) + BE32(i.octetCount)
  }

  function ReadInfo(s: seq<byte>, off: nat): SenderInfo
    requires off + 20 <= |s|
  {
    SenderInfo(U32(s, off), U32(s, off + 4), U32(s, off + 8), U32(s, off + 12), U32(s, off + 16))
  }

  lemma InfoRoundTrip(s: seq<byte>, off: nat, i: SenderInfo)
    requires off + 20 <= |s| && s[off..off + 20] == InfoBytes(i)
    ensures ReadInfo(s, off) == i
  {
    var t, r := s[off..], InfoBytes(i);
    assert t[..20] == r;
    FourParts(BE32(i.ntpMsw), BE32(i.ntpLsw), BE32(i.rtpTimestamp), BE32(i.packetCount));
    assert r[..16] == BE32(i.ntpMsw) + BE32(i.ntpLsw) + BE32(i.rtpTimestamp) + BE32(i.packetCount);
    assert r[0..4] == r[..16][0..4] && r[4..8] == r[..16][4..8] && r[8..12] == r[..16][8..12];
    assert r[12..16] == r[..16][12..16];
    assert r[16..20] == BE32(i.octetCount);
    hide BE32, U32, InfoBytes;
    assert t[0..4] == r[0..4] && t[4..8] == r[4..8] && t[8..12] == r[8..12] && t[12..16] == r[12..16];
    assert t[16..20] == r[16..20];
    Word(s, off, 0, i.ntpMsw);
    Word(s, off, 4, i.ntpLsw);
    Word(s, off, 8, i.rtpTimestamp);
    Word(s, off, 12, i.packetCount);
    Word(s, off, 16, i.octetCount);
  }

  /** Offset of the first report block: after the header, the SSRC and, in an SR, the sender info. */
  function BlocksAt(packetType: byte): nat {
    if packetType == SR then 28 else 8
  }

  /** An SR or RR is of known format when its count of blocks fills it exactly, padding aside. */
  predicate KnownReport(s: seq<byte>, packetType: byte)
    requires |s| >= 4
  {
    Unpadded(s) == Some(BlocksAt(packetType) + 24 * Count(s))
  }

  /** `RTCPSRPacket` and `RTCPRRPacket`, told apart by `packetType`. */
  class RTCPReportPacket {
    const packetType: byte
    const data: seq<byte>
    const knownFormat: bool

    constructor (packetType: byte, data: seq<byte>)
      requires |data| >= 4 && packetType in {SR, RR}
      ensures this.packetType == packetType && this.data == data && knownFormat == KnownReport(data, packetType)
    {
      this.packetType, this.data := packetType, data;
      var ok, len := StripPadding(data);
      var expectedLength: int := if packetType == SR then 4 + 4 + 20 else 4 + 4;
      var count: int := data[0] % 0x20;
      expectedLength := expectedLength + 24 * count;
      knownFormat := ok && expectedLength == len;
    }

    /** The report block readers at once, all 0 for a packet of unknown format. The caller answers for the
        index. */
    method GetReport(index: nat) returns (b: ReportBlock)
      requires |data| >= 4 && packetType in {SR, RR} && knownFormat == KnownReport(data, packetType)
      requires knownFormat ==> index < Count(data)
      ensures b == if knownFormat then ReadBlocks(data, BlocksAt(packetType), Count(data))[index]
                   else ReportBlock(0, 0, 0, 0, 0, 0, 0)
    {
      if !knownFormat {
        return ReportBlock(0, 0, 0, 0, 0, 0, 0);
      }
      var off := (if packetType == SR then 4 + 4 + 20 else 4 + 4) + 24 * index;
      var count: int := data[off + 7] as int + data[off + 6] as int * 0x100 + data[off + 5] as int * 0x1_0000;
      if count >= 0x80_0000 {
        count := count + 0xFF00_0000 - 0x1_0000_0000;
      }
      b := ReportBlock(U32(data, off), data[off + 4], count, U32(data, off + 8), U32(data, off + 12),
                       U32(data, off + 16), U32(data, off + 20));
      ReadBlocksAt(data, BlocksAt(packetType), Count(data), index);
    }
  }

  lemma {:induction false} ReadBlocksAt(s: seq<byte>, off: nat, n: nat, i: nat)
    requires off + 24 * n <= |s| && i < n
    ensures ReadBlocks(s, off, n)[i] == ReadBlock(s, off + 24 * i)
    decreases n
  {
    if i > 0 {
      ReadBlocksAt(s, off + 24, n - 1, i - 1);
    }
  }

  // ---------------------------------------------------------------- BYE

  /** A BYE packet; without a reason, `reason` is empty. */
  datatype Bye = Bye(ssrcs: seq<uint32>, reason: seq<byte>)

  predicate ByeOk(b: Bye) {
    |b.ssrcs| <= 31 && |b.reason| <= 255
  }

  function ReasonBytes(reason: seq<byte>): seq<byte>
    requires |reason| <= 255
  {
    if reason == [] then []
    else [|reason|] + reason + seq((4 - (1 + |reason|) % 4) % 4, _ => 0)
  }

  function ByeBytes(b: Bye): seq<byte>
    requires ByeOk(b)
  {
    var body := Words(b.ssrcs) + ReasonBytes(b.reason);
    Header(|b.ssrcs|, BYE, 4 + |body|) + body
  }

  predicate KnownBye(s: seq<byte>)
    requires |s| >= 4
  {
    match Unpadded(s)
    case None => false
    case Some(len) =>
      var at := 4 + 4 * Count(s);
      at == len || (at < len && s[at] <= len - at - 1)
  }

  function ReadBye(s: seq<byte>): Bye
    requires |s| >= 4 && KnownBye(s)
  {
    var len, at := Unpadded(s).value, 4 + 4 * Count(s);
    Bye(ReadWords(s, 4, Count(s)), if at < len then s[at + 1..at + 1 + s[at]] else [])
  }

  class RTCPBYEPacket {
    const data: seq<byte>
    var knownFormat: bool
    var reasonOffset: nat

    constructor (data: seq<byte>)
      requires |data| >= 4
      ensures this.data == data && knownFormat == KnownBye(data)
      ensures knownFormat ==>
        reasonOffset == if 4 + 4 * Count(data) < Unpadded(data).value then 4 + 4 * Count(data) else 0
    {
      this.data, knownFormat, reasonOffset := data, false, 0;
      new;
      var ok, len := StripPadding(data);
      if !ok {
        return;
      }
      var ssrcLen := 4 * (data[0] % 0x20) + 4;
      if ssrcLen > len {
        return;
      }
      if ssrcLen < len {
        var reasonLen := data[ssrcLen];
        if reasonLen > len - ssrcLen - 1 {
          return;
        }
        reasonOffset := ssrcLen;
      }
      knownFormat := true;
    }

    /** `GetReasonLength` and `GetReasonData` */
    method GetReason() returns (reason: seq<byte>)
      requires |data| >= 4 && knownFormat == KnownBye(data)
      requires knownFormat ==>
        reasonOffset == if 4 + 4 * Count(data) < Unpadded(data).value then 4 + 4 * Count(data) else 0
      ensures reason == if KnownBye(data) then ReadBye(data).reason else []
    {
      if !knownFormat || reasonOffset == 0 {
        return [];
      }
      reason := data[reasonOffset + 1..reasonOffset + 1 + data[reasonOffset]];
    }
  }

  // ---------------------------------------------------------------- APP

  datatype App = App(subtype: nat, ssrc: uint32, name: seq<byte>, data: seq<byte>)

  predicate AppOk(a: App) {
    a.subtype <= 31 && |a.name| == 4 && |a.data| % 4 == 0 && |a.data| / 4 + 2 <= 65535
  }

  function AppBytes(a: App): (s: seq<byte>)
    requires AppOk(a)
    ensures |s| == 12 + |a.data|
  {
    Header(a.subtype, APP, 12 + |a.data|) + BE32(a.ssrc) + a.name + a.data
  }

  predicate KnownApp(s: seq<byte>)
    requires |s| >= 4
  {
    Unpadded(s).Some? && Unpadded(s).value >= 12
  }

  function ReadApp(s: seq<byte>): App
    requires |s| >= 4 && KnownApp(s)
  {
    App(Count(s), U32(s, 4), s[8..12], s[12..Unpadded(s).value])
  }

  class RTCPAPPPacket {
    const data: seq<byte>
    const knownFormat: bool
    const appDataLen: nat

    constructor (data: seq<byte>)
      requires |data| >= 4
      ensures this.data == data && knownFormat == KnownApp(data)
      ensures knownFormat ==> appDataLen == |ReadApp(data).data|
    {
      this.data := data;
      var ok, len := StripPadding(data);
      knownFormat := ok && len >= 12;
      appDataLen := if ok && len >= 12 then len - 12 else 0;
    }
  }

  // ---------------------------------------------------------------- round trips

  /** Every BYE packet built is of known format; sources and reason come back despite the padding. */
  lemma ByeRoundTrip(b: Bye)
    requires ByeOk(b)
    ensures
      var s := ByeBytes(b);
      && |s| >= 4 && |s| % 4 == 0 && |s| <= 384
      && Version(s) == 2 && !HasPadding(s) && Type(s) == BYE && AnnouncedSize(s) == |s|
      && KnownBye(s) && ReadBye(s) == b
  {
    hide Header, U16, BE16;
    hide Words, ReasonBytes;
    var s, w, r := ByeBytes(b), Words(b.ssrcs), ReasonBytes(b.reason);
    FourParts(Header(|b.ssrcs|, BYE, 4 + |w + r|), w, r, []);
    assert s == Header(|b.ssrcs|, BYE, 4 + |w + r|) + w + r + [];
    ReasonRoundTrip(s, 4 + |w|, b.reason);
    HeaderRead(s, |b.ssrcs|, BYE, |s|);
    WordsRoundTrip(s, 4, b.ssrcs);
  }

  lemma ReasonRoundTrip(s: seq<byte>, at: nat, reason: seq<byte>)
    requires at <= |s| && |reason| <= 255 && s[at..] == ReasonBytes(reason)
    ensures |ReasonBytes(reason)| % 4 == 0 && |ReasonBytes(reason)| <= 256
    ensures at < |s| <==> reason != []
    ensures at < |s| ==> s[at] == |reason| <= |s| - at - 1 && s[at + 1..at + 1 + |reason|] == reason
  {
    var r := ReasonBytes(reason);
    if reason != [] {
      assert s[at] == r[0];
      assert s[at + 1..at + 1 + |reason|] == s[at..][1..1 + |reason|];
    }
  }

  lemma AppRoundTrip(a: App)
    requires AppOk(a)
    ensures
      var s := AppBytes(a);
      && |s| % 4 == 0 && |s| <= 0x4_0000
      && Version(s) == 2 && !HasPadding(s) && Type(s) == APP && AnnouncedSize(s) == |s|
      && KnownApp(s) && ReadApp(s) == a
  {
    hide Header, U16, BE16, U32, BE32;
    var s := AppBytes(a);
    FourParts(Header(a.subtype, APP, 12 + |a.data|), BE32(a.ssrc), a.name, a.data);
    HeaderRead(s, a.subtype, APP, |s|);
    ReadSlice(s, 4, BE32(a.ssrc));
    RoundTrip32(a.ssrc);
  }
}
