/** Where everything stands in the packets on the wire: the figures of sections 5.1, 5.3.1, 6.4 to 6.7 of
    RFC 3550 as numbers whose first byte is the most significant. */
module WireLayout {
  import opened Bytes
  import RtcpPackets
  import RtpPacket
  import SdesPacket

  /** The number that bytes stand for in network byte order. */
  function Number(s: seq<byte>): nat {
    if s == [] then 0 else 256 * Number(s[..|s| - 1]) + s[|s| - 1]
  }

  /** The `n` bytes at `at` are the number `x`. */
  predicate Field(s: seq<byte>, at: nat, n: nat, x: int) {
    at + n <= |s| && Number(s[at..at + n]) == x
  }

  lemma TwoBytes(s: seq<byte>)
    requires |s| == 2
    ensures Number(s) == 256 * s[0] as int + s[1]
  {
    assert Number(s[..1]) == s[0] by {
      assert s[..1][..0] == [] && Number([]) == 0;
    }
    assert s == s[..1] + [s[1]];
  }

  lemma Word16(x: uint16)
    ensures Number(BE16(x)) == x
  {
    TwoBytes(BE16(x));
  }

  lemma Word32(x: uint32)
    ensures Number(BE32(x)) == x
  {
    var s := BE32(x);
    assert s[..3] == [x / 0x100_0000, x / 0x1_0000 % 0x100, x / 0x100 % 0x100];
    assert s[..3][..2] == [x / 0x100_0000, x / 0x1_0000 % 0x100];
    TwoBytes(s[..3][..2]);
    assert x / 0x1_0000 == x / 0x100_0000 * 0x100 + x / 0x1_0000 % 0x100;
    assert x / 0x100 == x / 0x1_0000 * 0x100 + x / 0x100 % 0x100;
  }

  /** A word inside a packet. */
  lemma Word(s: seq<byte>, at: nat, x: uint32)
    requires at + 4 <= |s| && s[at..at + 4] == BE32(x)
    ensures Field(s, at, 4, x)
  {
    hide BE32, Number;
    Word32(x);
  }

  lemma HalfWord(s: seq<byte>, at: nat, x: uint16)
    requires at + 2 <= |s| && s[at..at + 2] == BE16(x)
    ensures Field(s, at, 2, x)
  {
    hide BE16, Number;
    Word16(x);
  }

  /** A part of a packet that stands behind others. */
  lemma Inside(a: seq<byte>, p: seq<byte>, z: seq<byte>)
    ensures (a + p + z)[|a|..|a| + |p|] == p
  {
  }

  lemma FieldInside(a: seq<byte>, p: seq<byte>, z: seq<byte>, at: nat, n: nat, x: int)
    requires Field(p, at, n, x)
    ensures Field(a + p + z, |a| + at, n, x)
  {
    hide Number;
    assert (a + p + z)[|a| + at..|a| + at + n] == p[at..at + n];
  }

  lemma {:induction false} WordsLayout(xs: seq<uint32>, i: nat)
    requires i < |xs|
    ensures Field(Words(xs), 4 * i, 4, xs[i])
  {
    hide Number, BE32;
    if i == 0 {
      Word(Words(xs), 0, xs[0]);
    } else {
      WordsLayout(xs[1..], i - 1);
      FieldInside(BE32(xs[0]), Words(xs[1..]), [], 4 * (i - 1), 4, xs[i]);
      assert BE32(xs[0]) + Words(xs[1..]) + [] == Words(xs);
    }
  }

  // ---------------------------------------------------------------- RTP

  /** The fixed header: version 2, extension bit, number of CSRCs; marker and payload type; sequence
      number, timestamp and SSRC. */
  lemma RtpHeaderLayout(f: RtpPacket.Fields)
    requires RtpPacket.Encodable(f)
    ensures
      var s := RtpPacket.Header(f);
      && |s| == 12
      && s[0] == 2 * 64 + (if f.extension.Extension? then 16 else 0) + |f.csrcs|
      && s[1] == (if f.marker then 128 else 0) + f.payloadType
      && Field(s, 2, 2, f.seqNr) && Field(s, 4, 4, f.timestamp) && Field(s, 8, 4, f.ssrc)
  {
    hide BE16, BE32, Number, Field;
    var s := RtpPacket.Header(f);
    assert s[2..4] == BE16(f.seqNr) && s[4..8] == BE32(f.timestamp) && s[8..12] == BE32(f.ssrc);
    HalfWord(s, 2, f.seqNr);
    Word(s, 4, f.timestamp);
    Word(s, 8, f.ssrc);
  }

  /** Behind the header stand the CSRCs, then the extension with its identifier and its length in words,
      then the payload up to the end. */
  lemma RtpLayout(f: RtpPacket.Fields)
    requires RtpPacket.Encodable(f)
    ensures
      var s, e := RtpPacket.Encode(f), 12 + 4 * |f.csrcs|;
      var p := e + if f.extension.Extension? then 4 + |f.extension.data| else 0;
      && |s| == p + |f.payload| && s[..12] == RtpPacket.Header(f) && s[p..] == f.payload
      && (forall i | 0 <= i < |f.csrcs| :: Field(s, 12 + 4 * i, 4, f.csrcs[i]))
      && (f.extension.Extension? ==>
            && Field(s, e, 2, f.extension.id) && Field(s, e + 2, 2, |f.extension.data| / 4)
            && s[e + 4..p] == f.extension.data)
  {
    hide RtpPacket.Header, RtpPacket.ExtensionBytes, Words, Number, Field;
    var h, w, x := RtpPacket.Header(f), Words(f.csrcs), RtpPacket.ExtensionBytes(f.extension);
    var s := RtpPacket.Encode(f);
    RtpPacket.ExtensionSize(f.extension);
    FourParts(h, w, x, f.payload);
    forall i | 0 <= i < |f.csrcs|
      ensures Field(s, 12 + 4 * i, 4, f.csrcs[i])
    {
      WordsLayout(f.csrcs, i);
      FieldInside(h, w, x + f.payload, 4 * i, 4, f.csrcs[i]);
      assert h + w + (x + f.payload) == s;
    }
    if f.extension.Extension? {
      ExtensionLayout(f.extension);
      FieldInside(h + w, x, f.payload, 0, 2, f.extension.id);
      FieldInside(h + w, x, f.payload, 2, 2, |f.extension.data| / 4);
      assert s[|h + w| + 4..|h + w| + |x|] == x[4..];
    }
  }

  lemma ExtensionLayout(x: RtpPacket.Extension)
    requires x.Extension? && RtpPacket.ExtensionOk(x)
    ensures
      var b := RtpPacket.ExtensionBytes(x);
      |b| == 4 + |x.data| && Field(b, 0, 2, x.id) && Field(b, 2, 2, |x.data| / 4) && b[4..] == x.data
  {
    hide BE16, Number, Field;
    var b := RtpPacket.ExtensionBytes(x);
    assert b[0..2] == BE16(x.id) && b[2..4] == BE16(|x.data| / 4);
    HalfWord(b, 0, x.id);
    HalfWord(b, 2, |x.data| / 4);
  }

  // ---------------------------------------------------------------- RTCP

  /** The common header: version 2 without padding, count, packet type, and the length in words less one. */
  lemma RtcpHeaderLayout(count: nat, packetType: byte, size: nat)
    requires count < 32 && 4 <= size <= 0x4_0000 && size % 4 == 0
    ensures
      var h := RtcpPackets.Header(count, packetType, size);
      h[0] == 2 * 64 + count && h[1] == packetType && Field(h, 2, 2, size / 4 - 1)
  {
    hide BE16, Number, Field;
    var h := RtcpPackets.Header(count, packetType, size);
    assert h[2..4] == BE16(size / 4 - 1);
    HalfWord(h, 2, size / 4 - 1);
  }

  /** A report block: source, fraction lost, 24 bits of packets lost, highest number, jitter, time of the
      last SR and delay since then. */
  lemma BlockLayout(b: RtcpPackets.ReportBlock)
    ensures
      var s := RtcpPackets.BlockBytes(b);
      && |s| == 24 && Field(s, 0, 4, b.ssrc) && s[4] == b.fractionLost && Field(s, 5, 3, b.packetsLost % 0x100_0000)
      && Field(s, 8, 4, b.extHighestSeq) && Field(s, 12, 4, b.jitter) && Field(s, 16, 4, b.lsr)
      && Field(s, 20, 4, b.dlsr)
  {
    hide BE32, Number, Field, RtcpPackets.Byte24;
    var s := RtcpPackets.BlockBytes(b);
    assert s[0..4] == BE32(b.ssrc) && s[8..12] == BE32(b.extHighestSeq) && s[12..16] == BE32(b.jitter);
    assert s[16..20] == BE32(b.lsr) && s[20..24] == BE32(b.dlsr);
    Word(s, 0, b.ssrc);
    Word(s, 8, b.extHighestSeq);
    Word(s, 12, b.jitter);
    Word(s, 16, b.lsr);
    Word(s, 20, b.dlsr);
    LostBytes(b.packetsLost);
    assert s[5..8] == RtcpPackets.Byte24(b.packetsLost);
    IsField(s, 5, 3, b.packetsLost % 0x100_0000);
  }

  lemma IsField(s: seq<byte>, at: nat, n: nat, x: int)
    requires at + n <= |s| && Number(s[at..at + n]) == x
    ensures Field(s, at, n, x)
  {
  }

  lemma LostBytes(x: int)
    ensures |RtcpPackets.Byte24(x)| == 3 && Number(RtcpPackets.Byte24(x)) == x % 0x100_0000
  {
    var s, y := RtcpPackets.Byte24(x), x % 0x100_0000;
    assert s[..2] == [y / 0x1_0000, y / 0x100 % 0x100];
    TwoBytes(s[..2]);
    assert y / 0x100 == y / 0x1_0000 * 0x100 + y / 0x100 % 0x100;
  }

  /** Sender information: the two halves of the NTP time, the RTP timestamp, packets and bytes sent. */
  lemma InfoLayout(i: RtcpPackets.SenderInfo)
    ensures
      var s := RtcpPackets.InfoBytes(i);
      && |s| == 20 && Field(s, 0, 4, i.ntpMsw) && Field(s, 4, 4, i.ntpLsw) && Field(s, 8, 4, i.rtpTimestamp)
      && Field(s, 12, 4, i.packetCount) && Field(s, 16, 4, i.octetCount)
  {
    hide BE32, Number, Field;
    var s := RtcpPackets.InfoBytes(i);
    assert s[0..4] == BE32(i.ntpMsw) && s[4..8] == BE32(i.ntpLsw) && s[8..12] == BE32(i.rtpTimestamp);
    assert s[12..16] == BE32(i.packetCount) && s[16..20] == BE32(i.octetCount);
    Word(s, 0, i.ntpMsw);
    Word(s, 4, i.ntpLsw);
    Word(s, 8, i.rtpTimestamp);
    Word(s, 12, i.packetCount);
    Word(s, 16, i.octetCount);
  }

  /** An APP packet: subtype in the count, source, four characters of name, data. */
  lemma AppLayout(a: RtcpPackets.App)
    requires RtcpPackets.AppOk(a)
    ensures
      var s := RtcpPackets.AppBytes(a);
      && |s| == 12 + |a.data| && s[0] == 2 * 64 + a.subtype && s[1] == RtcpPackets.APP
      && Field(s, 4, 4, a.ssrc) && s[8..12] == a.name && s[12..] == a.data
  {
    hide BE32, BE16, Number, Field;
    var s := RtcpPackets.AppBytes(a);
    assert s[4..8] == BE32(a.ssrc);
    Word(s, 4, a.ssrc);
  }

  /** A BYE packet: the number of sources, the sources, and the reason behind its length. */
  lemma ByeLayout(b: RtcpPackets.Bye)
    requires RtcpPackets.ByeOk(b)
    ensures
      var s, r := RtcpPackets.ByeBytes(b), 4 + 4 * |b.ssrcs|;
      && |s| % 4 == 0 && |s| >= r && s[0] == 2 * 64 + |b.ssrcs| && s[1] == RtcpPackets.BYE
      && (forall i | 0 <= i < |b.ssrcs| :: Field(s, 4 + 4 * i, 4, b.ssrcs[i]))
      && (|s| == r <==> b.reason == [])
      && (b.reason != [] ==> ReasonAt(s, r, b.reason))
  {
    hide BE16, Words, Number, Field, ReasonAt, RtcpPackets.ReasonBytes;
    var s, w, x := RtcpPackets.ByeBytes(b), Words(b.ssrcs), RtcpPackets.ReasonBytes(b.reason);
    var h := RtcpPackets.Header(|b.ssrcs|, RtcpPackets.BYE, 4 + |w + x|);
    assert s == h + w + x;
    forall i | 0 <= i < |b.ssrcs|
      ensures Field(s, 4 + 4 * i, 4, b.ssrcs[i])
    {
      WordsLayout(b.ssrcs, i);
      FieldInside(h, w, x, 4 * i, 4, b.ssrcs[i]);
    }
    ReasonLayout(b.reason);
    ReasonInside(h + w, x, b.reason);
  }

  lemma ReasonLayout(reason: seq<byte>)
    requires |reason| <= 255
    ensures var x := RtcpPackets.ReasonBytes(reason); |x| % 4 == 0 && (|x| == 0 <==> reason == [])
    ensures reason != [] ==> ReasonAt(RtcpPackets.ReasonBytes(reason), 0, reason)
  {
  }

  predicate ReasonAt(s: seq<byte>, at: nat, reason: seq<byte>) {
    at + 1 + |reason| <= |s| && s[at] == |reason| && s[at + 1..at + 1 + |reason|] == reason
  }

  lemma ReasonInside(a: seq<byte>, x: seq<byte>, reason: seq<byte>)
    ensures ReasonAt(x, 0, reason) ==> ReasonAt(a + x, |a|, reason)
  {
    if ReasonAt(x, 0, reason) {
      var s := a + x;
      assert s[|a|] == x[0] && s[|a| + 1..|a| + 1 + |reason|] == x[1..1 + |reason|];
    }
  }

  /** An item behind its type and length. */
  predicate ItemAt(s: seq<byte>, at: nat, i: SdesPacket.Item) {
    at + 2 + |i.data| <= |s| && s[at] == i.id && s[at + 1] == |i.data| && s[at + 2..at + 2 + |i.data|] == i.data
  }

  /** An SDES chunk: the source, then its items, each behind its type and length, then a zero byte and
      more of them up to a multiple of four. */
  lemma ChunkLayout(c: SdesPacket.Chunk)
    requires SdesPacket.ChunkOk(c)
    ensures
      var s, n := SdesPacket.ChunkBytes(c), SdesPacket.ItemOffset(c.items, |c.items|);
      && |s| % 4 == 0 && 4 + n < |s| <= 4 + n + 4 && Field(s, 0, 4, c.ssrc)
      && (forall j | 4 + n <= j < |s| :: s[j] == 0)
      && (forall j | 0 <= j < |c.items| :: ItemAt(s[..4 + n], 4 + SdesPacket.ItemOffset(c.items, j), c.items[j]))
  {
    hide BE32, Number, Field, SdesPacket.ItemOffset, SdesPacket.ItemsBytes, ItemAt;
    var s, w := SdesPacket.ChunkBytes(c), SdesPacket.ItemsBytes(c.items);
    assert s[0..4] == BE32(c.ssrc);
    Word(s, 0, c.ssrc);
    assert s[..4 + |w|] == BE32(c.ssrc) + w;
    forall j | 0 <= j < |c.items|
      ensures ItemAt(s[..4 + |w|], 4 + SdesPacket.ItemOffset(c.items, j), c.items[j])
    {
      ItemsLayout(c.items, j);
      ItemInside(BE32(c.ssrc), w, SdesPacket.ItemOffset(c.items, j), c.items[j]);
    }
  }

  lemma ItemInside(a: seq<byte>, w: seq<byte>, at: nat, i: SdesPacket.Item)
    requires ItemAt(w, at, i)
    ensures ItemAt(a + w, |a| + at, i)
  {
    var s := a + w;
    assert s[|a| + at] == w[at] && s[|a| + at + 1] == w[at + 1];
    assert s[|a| + at + 2..|a| + at + 2 + |i.data|] == w[at + 2..at + 2 + |i.data|];
  }

  lemma {:induction false} ItemsLayout(items: seq<SdesPacket.Item>, j: nat)
    requires (forall i | i in items :: SdesPacket.ItemOk(i)) && j < |items|
    ensures ItemAt(SdesPacket.ItemsBytes(items), SdesPacket.ItemOffset(items, j), items[j])
  {
    hide ItemAt;
    var first, rest := SdesPacket.ItemBytes(items[0]), SdesPacket.ItemsBytes(items[1..]);
    if j == 0 {
      FirstItem(items[0], rest);
    } else {
      ItemsLayout(items[1..], j - 1);
      ItemInside(first, rest, SdesPacket.ItemOffset(items[1..], j - 1), items[j]);
    }
  }

  lemma FirstItem(i: SdesPacket.Item, rest: seq<byte>)
    requires SdesPacket.ItemOk(i)
    ensures ItemAt(SdesPacket.ItemBytes(i) + rest, 0, i)
  {
    assert (SdesPacket.ItemBytes(i) + rest)[2..2 + |i.data|] == i.data;
  }
}
