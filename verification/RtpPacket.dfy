/** The RTP packet format (sections 5.1 and 5.3.1 of RFC 3550): `RTPPacket::BuildPacket`,
    `ParseRawPacket` and `GetCSRC` of rtppacket.cpp. */
module RtpPacket {
  import opened Bytes

  const HEADERSIZE: nat := 12
  const MAXCSRCS: nat := 15

  datatype Error = InvalidPacket | TooManyCSRCs | BadPayloadType | DataExceedsMaxSize
  datatype Status = Success | Failure(error: Error)

  /** A header extension: the data is a whole number of 32-bit words. */
  datatype Extension = NoExtension | Extension(id: uint16, data: seq<byte>)

  /** What an RTP packet says. */
  datatype Fields = Fields(marker: bool, payloadType: byte, seqNr: uint16, timestamp: uint32, ssrc: uint32,
                           csrcs: seq<uint32>, extension: Extension, payload: seq<byte>)

  predicate ExtensionOk(e: Extension) {
    e.Extension? ==> |e.data| % 4 == 0 && |e.data| / 4 < 0x1_0000
  }

  /** What the fields of the wire format can hold. */
  predicate Encodable(f: Fields) {
    |f.csrcs| <= MAXCSRCS && f.payloadType <= 127 && ExtensionOk(f.extension)
  }

  // ---------------------------------------------------------------- the wire format

  function ExtensionBytes(e: Extension): seq<byte>
    requires ExtensionOk(e)
  {
    if e.NoExtension? then [] else BE16(e.id) + BE16(|e.data| / 4) + e.data
  }

  function Header(f: Fields): (s: seq<byte>)
    requires Encodable(f)
    ensures |s| == HEADERSIZE
  {
    [0x80 + (if f.extension.Extension? then 0x10 else 0) + |f.csrcs|,
     (if f.marker then 0x80 else 0) + f.payloadType]
    + BE16(f.seqNr) + BE32(f.timestamp) + BE32(f.ssrc)
  }

  function Encode(f: Fields): seq<byte>
    requires Encodable(f)
  {
    Header(f) + Words(f.csrcs) + ExtensionBytes(f.extension) + f.payload
  }

  // ---------------------------------------------------------------- parsing

  /** `padding` is the number of padding bytes at the end. */
  datatype Parsed = Invalid | Valid(fields: Fields, padding: nat)

  function Version(s: seq<byte>): nat
    requires s != []
  {
    s[0] / 0x40
  }

  predicate HasPadding(s: seq<byte>)
    requires s != []
  {
    s[0] / 0x20 % 2 == 1
  }

  predicate HasExtension(s: seq<byte>)
    requires s != []
  {
    s[0] / 0x10 % 2 == 1
  }

  function CsrcCount(s: seq<byte>): nat
    requires s != []
  {
    s[0] % 0x10
  }

  /** A marker bit with payload type 72 or 73 looks like an RTCP SR or RR packet. */
  predicate LooksLikeRTCP(s: seq<byte>)
    requires |s| >= 2
  {
    s[1] == 200 || s[1] == 201
  }

  /** The checks made before the extension header is read. */
  predicate Plausible(s: seq<byte>) {
    |s| >= HEADERSIZE && Version(s) == 2 && !LooksLikeRTCP(s) && (HasPadding(s) ==> s[|s| - 1] > 0)
  }

  /** The parser reads the extension header before it has compared the lengths, so the caller has to
      provide those four bytes. */
  predicate ExtensionHeaderReadable(s: seq<byte>) {
    Plausible(s) && HasExtension(s) ==> HEADERSIZE + 4 * CsrcCount(s) + 4 <= |s|
  }

  function PaddingOf(s: seq<byte>): nat
    requires Plausible(s)
  {
    if HasPadding(s) then s[|s| - 1] else 0
  }

  function PayloadOffset(s: seq<byte>): nat
    requires Plausible(s) && ExtensionHeaderReadable(s)
  {
    var e := HEADERSIZE + 4 * CsrcCount(s);
    if HasExtension(s) then e + 4 + 4 * U16(s, e + 2) else e
  }

  function Parse(s: seq<byte>): Parsed
    requires ExtensionHeaderReadable(s)
  {
    if !Plausible(s) || PayloadOffset(s) + PaddingOf(s) > |s| then Invalid
    else
      var e := HEADERSIZE + 4 * CsrcCount(s);
      var p := PayloadOffset(s);
      Valid(Fields(s[1] >= 0x80, s[1] % 0x80, U16(s, 2), U32(s, 4), U32(s, 8),
                   ReadWords(s, HEADERSIZE, CsrcCount(s)),
                   if HasExtension(s) then Extension(U16(s, e), s[e + 4..p]) else NoExtension,
                   s[p..|s| - PaddingOf(s)]),
            PaddingOf(s))
  }

  // ---------------------------------------------------------------- laws

  /** The header bytes are read back as they were written. */
  lemma HeaderRoundTrip(f: Fields, s: seq<byte>)
    requires Encodable(f) && |s| >= HEADERSIZE && s[..HEADERSIZE] == Header(f)
    ensures Version(s) == 2 && !HasPadding(s) && CsrcCount(s) == |f.csrcs|
    ensures HasExtension(s) == f.extension.Extension?
    ensures (s[1] >= 0x80) == f.marker && s[1] % 0x80 == f.payloadType
    ensures U16(s, 2) == f.seqNr && U32(s, 4) == f.timestamp && U32(s, 8) == f.ssrc
  {
    var h := s[..HEADERSIZE];
    assert s[0] == h[0] && s[1] == h[1];
    assert s[2..4] == h[2..4] == BE16(f.seqNr);
    assert s[4..8] == h[4..8] == BE32(f.timestamp);
    assert s[8..12] == h[8..12] == BE32(f.ssrc);
    ReadSlice(s, 2, BE16(f.seqNr));
    ReadSlice(s, 4, BE32(f.timestamp));
    ReadSlice(s, 8, BE32(f.ssrc));
    RoundTrip32(f.timestamp);
    RoundTrip32(f.ssrc);
  }

  lemma ExtensionRoundTrip(s: seq<byte>, at: nat, x: Extension)
    requires x.Extension? && ExtensionOk(x)
    requires at + |ExtensionBytes(x)| <= |s| && s[at..at + |ExtensionBytes(x)|] == ExtensionBytes(x)
    ensures U16(s, at) == x.id && 4 * U16(s, at + 2) == |x.data| && s[at + 4..at + 4 + |x.data|] == x.data
  {
    hide BE16, U16;
    var b, n := ExtensionBytes(x), |x.data|;
    assert b[0..2] == BE16(x.id) && b[2..4] == BE16(n / 4) && b[4..] == x.data;
    assert s[at..at + 2] == b[0..2] && s[at + 2..at + 4] == b[2..4] && s[at + 4..at + 4 + n] == b[4..];
    ReadSlice(s, at, b[0..2]);
    ReadSlice(s, at + 2, b[2..4]);
    RoundTrip16(x.id);
    RoundTrip16(n / 4);
  }

  /** Every packet built is parsed back into what it was built from, unless its marker and payload
      type make it look like RTCP; then it is refused. */
  lemma ParseEncode(f: Fields)
    requires Encodable(f)
    ensures ExtensionHeaderReadable(Encode(f))
    ensures Parse(Encode(f)) == if f.marker && f.payloadType in {72, 73} then Invalid else Valid(f, 0)
  {
    hide U16, U32, Words, ReadWords, Header, ExtensionBytes;
    var s := Encode(f);
    var c, x := Words(f.csrcs), ExtensionBytes(f.extension);
    FourParts(Header(f), c, x, f.payload);
    HeaderRoundTrip(f, s);
    WordsRoundTrip(s, HEADERSIZE, f.csrcs);
    ExtensionSize(f.extension);
    if f.extension.Extension? {
      ExtensionRoundTrip(s, HEADERSIZE + |c|, f.extension);
    }
  }

  /** The packet with padding behind it, whose last byte tells how much. */
  function Padded(s: seq<byte>, pad: seq<byte>): seq<byte>
    requires s != [] && s[0] < 0xE0
  {
    [s[0] + 0x20] + s[1..] + pad
  }

  /** Padding of any length from 1 to 255 is taken off again and changes nothing else. */
  lemma ParsePadded(s: seq<byte>, f: Fields, pad: seq<byte>)
    requires ExtensionHeaderReadable(s) && Parse(s) == Valid(f, 0)
    requires 1 <= |pad| <= 255 && pad[|pad| - 1] == |pad|
    ensures |s| >= HEADERSIZE && s[0] < 0xE0
    ensures ExtensionHeaderReadable(Padded(s, pad)) && Parse(Padded(s, pad)) == Valid(f, |pad|)
  {
    hide U16, U32, ReadWords, Plausible, Padded, PayloadOffset, PaddingOf, ExtensionHeaderReadable;
    PaddedShape(s, pad);
    var q, e := Padded(s, pad), HEADERSIZE + 4 * CsrcCount(s);
    SameWords(s, q, 2);
    SameWords(s, q, 4);
    SameWords(s, q, 8);
    ReadWordsSame(s, q, HEADERSIZE, CsrcCount(s));
    if HasExtension(s) {
      SameHalf(s, q, e);
    }
    PartsSame(s, q, PayloadOffset(s), e, |pad|);
  }

  lemma PaddedShape(s: seq<byte>, pad: seq<byte>)
    requires ExtensionHeaderReadable(s) && Parse(s).Valid? && Parse(s).padding == 0
    requires 1 <= |pad| <= 255 && pad[|pad| - 1] == |pad|
    ensures Plausible(s) && |s| >= HEADERSIZE + 4 * CsrcCount(s) && s[0] < 0xE0
    ensures HasExtension(s) ==> HEADERSIZE + 4 * CsrcCount(s) + 4 <= PayloadOffset(s) <= |s|
    ensures PaddingOf(s) == 0 && HEADERSIZE <= PayloadOffset(s) <= |s|
    ensures
      var q := Padded(s, pad);
      && |q| == |s| + |pad| && (forall i | 1 <= i < |s| :: q[i] == s[i])
      && Plausible(q) && ExtensionHeaderReadable(q) && PaddingOf(q) == |pad|
      && HasExtension(q) == HasExtension(s) && CsrcCount(q) == CsrcCount(s) && PayloadOffset(q) == PayloadOffset(s)
  {
    hide U16;
    FirstByte(s[0]);
    var q, e := Padded(s, pad), HEADERSIZE + 4 * CsrcCount(s);
    BehindFirst(s, pad);
    SameHead(s, q);
    if HasExtension(s) {
      SameHalf(s, q, e + 2);
    }
  }

  lemma SameHead(s: seq<byte>, q: seq<byte>)
    requires s != [] && q != [] && s[0] / 0x40 == 2 && s[0] / 0x20 % 2 == 0 && q[0] == s[0] + 0x20
    ensures Version(q) == 2 && HasPadding(q) && HasExtension(q) == HasExtension(s) && CsrcCount(q) == CsrcCount(s)
  {
  }

  lemma SameHalf(s: seq<byte>, q: seq<byte>, i: nat)
    requires i + 2 <= |s| <= |q| && forall k | i <= k < i + 2 :: q[k] == s[k]
    ensures U16(q, i) == U16(s, i)
  {
  }

  lemma PartsSame(s: seq<byte>, q: seq<byte>, p: nat, e: nat, n: nat)
    requires 1 <= p <= |s| && |q| == |s| + n && 1 <= e && forall i | 1 <= i < |s| :: q[i] == s[i]
    ensures q[p..|q| - n] == s[p..] && (e + 4 <= p ==> q[e + 4..p] == s[e + 4..p])
  {
  }

  lemma {:induction false} ReadWordsSame(s: seq<byte>, q: seq<byte>, off: nat, n: nat)
    requires off >= 1 && off + 4 * n <= |s| <= |q| && forall i | 1 <= i < |s| :: q[i] == s[i]
    ensures ReadWords(q, off, n) == ReadWords(s, off, n)
    decreases n
  {
    if n > 0 {
      SameWords(s, q, off);
      ReadWordsSame(s, q, off + 4, n - 1);
    }
  }

  lemma BehindFirst(s: seq<byte>, pad: seq<byte>)
    requires s != [] && s[0] < 0xE0
    ensures
      var q := Padded(s, pad);
      && |q| == |s| + |pad| && q[0] == s[0] + 0x20 && (pad != [] ==> q[|q| - 1] == pad[|pad| - 1])
      && (forall i | 1 <= i < |s| :: q[i] == s[i])
  {
  }

  lemma SameWords(s: seq<byte>, q: seq<byte>, i: nat)
    requires i + 4 <= |s| <= |q| && forall k | i <= k < i + 4 :: q[k] == s[k]
    ensures U16(q, i) == U16(s, i) && U32(q, i) == U32(s, i)
  {
  }

  lemma ExtensionSize(x: Extension)
    requires ExtensionOk(x)
    ensures |ExtensionBytes(x)| == SizeOf(x)
  {
  }

  function SizeOf(e: Extension): nat {
    if e.NoExtension? then 0 else 4 + |e.data|
  }

  /** The parts of every accepted packet fill it exactly. */
  lemma PartsFillPacket(s: seq<byte>)
    requires ExtensionHeaderReadable(s) && Parse(s).Valid?
    ensures
      var f := Parse(s).fields;
      && Encodable(f)
      && HEADERSIZE + 4 * |f.csrcs| + SizeOf(f.extension) + |f.payload| + Parse(s).padding == |s|
      && (HasPadding(s) <==> Parse(s).padding > 0)
  {
  }

  lemma FirstByte(b: byte)
    requires b / 0x40 == 2
    ensures b == 0x80 + b / 0x20 % 2 * 0x20 + b / 0x10 % 2 * 0x10 + b % 0x10
  {
    assert b / 0x10 == 8 + b / 0x20 % 2 * 2 + b / 0x10 % 2;
  }

  lemma HeaderReadBack(s: seq<byte>, f: Fields)
    requires |s| >= HEADERSIZE && Version(s) == 2 && Encodable(f)
    requires |f.csrcs| == CsrcCount(s) && f.extension.Extension? == HasExtension(s)
    requires f.marker == (s[1] >= 0x80) && f.payloadType == s[1] % 0x80
    requires f.seqNr == U16(s, 2) && f.timestamp == U32(s, 4) && f.ssrc == U32(s, 8)
    ensures Header(f) == [if HasPadding(s) then s[0] - 0x20 else s[0]] + s[1..HEADERSIZE]
  {
    hide BE16, BE32, U16, U32;
    FirstByte(s[0]);
    WriteRead16(s, 2);
    WriteRead32(s, 4);
    WriteRead32(s, 8);
    assert s[1..HEADERSIZE] == [s[1]] + s[2..4] + s[4..8] + s[8..12];
  }

  lemma ExtensionReadBack(s: seq<byte>, at: nat, end: nat)
    requires at + 4 <= end <= |s| && end == at + 4 + 4 * U16(s, at + 2)
    ensures ExtensionBytes(Extension(U16(s, at), s[at + 4..end])) == s[at..end]
  {
    hide BE16, U16;
    WriteRead16(s, at);
    WriteRead16(s, at + 2);
  }

  lemma SliceParts(x: byte, s: seq<byte>, a: nat, b: nat, c: nat, d: nat)
    requires 1 <= a <= b <= c <= d <= |s|
    ensures [x] + s[1..a] + s[a..b] + s[b..c] + s[c..d] == [x] + s[1..d]
  {
  }

  lemma PartsReadBack(s: seq<byte>)
    requires ExtensionHeaderReadable(s) && Parse(s).Valid?
    ensures
      var f, e := Parse(s).fields, HEADERSIZE + 4 * CsrcCount(s);
      && Encodable(f)
      && Header(f) == [if HasPadding(s) then s[0] - 0x20 else s[0]] + s[1..HEADERSIZE]
      && Words(f.csrcs) == s[HEADERSIZE..e]
      && ExtensionBytes(f.extension) == s[e..PayloadOffset(s)]
  {
    PartsFillPacket(s);
    HeaderReadBack(s, Parse(s).fields);
    hide Header, Words, ReadWords;
    WordsReadWords(s, HEADERSIZE, CsrcCount(s));
    if HasExtension(s) {
      ExtensionReadBack(s, HEADERSIZE + 4 * CsrcCount(s), PayloadOffset(s));
    }
  }

  /** Parsing loses nothing but the padding: encoding the result gives back the packet without its
      padding bytes and with the padding bit cleared. */
  lemma EncodeParse(s: seq<byte>)
    requires ExtensionHeaderReadable(s) && Parse(s).Valid?
    ensures Encodable(Parse(s).fields)
    ensures Encode(Parse(s).fields)
         == [if HasPadding(s) then s[0] - 0x20 else s[0]] + s[1..|s| - Parse(s).padding]
  {
    PartsReadBack(s);
    hide Words, ReadWords, Header, ExtensionBytes, U16, U32;
    SliceParts(if HasPadding(s) then s[0] - 0x20 else s[0], s, HEADERSIZE, HEADERSIZE + 4 * CsrcCount(s),
               PayloadOffset(s), |s| - PaddingOf(s));
  }

  // ---------------------------------------------------------------- the object

  class RTPPacket {
    var hasExtension: bool
    var hasMarker: bool
    var numCsrcs: nat
    var payloadType: byte
    var extSeqNr: uint32
    var timestamp: uint32
    var ssrc: uint32
    var packet: array?<byte>
    var packetLength: nat
    /** The pointers `payload` and `extension`, as offsets into `packet`. */
    var payloadOffset: nat
    var payloadLength: nat
    var extId: uint16
    var extensionOffset: nat
    var extensionLength: nat

    /** `Clear` */
    constructor ()
      ensures packet == null && packetLength == 0
    {
      hasExtension, hasMarker, numCsrcs, payloadType := false, false, 0, 0;
      extSeqNr, timestamp, ssrc, packet, packetLength := 0, 0, 0, null, 0;
      payloadOffset, payloadLength, extId, extensionOffset, extensionLength := 0, 0, 0, 0, 0;
    }

    /** The object describes the packet `bytes` whose fields are `f`. */
    ghost predicate Describes(f: Fields)
      reads this
    {
      && hasExtension == f.extension.Extension? && hasMarker == f.marker && payloadType == f.payloadType
      && numCsrcs == |f.csrcs| && extSeqNr == f.seqNr && timestamp == f.timestamp && ssrc == f.ssrc
      && payloadLength == |f.payload|
      && (f.extension.Extension? ==> extId == f.extension.id && extensionLength == |f.extension.data|)
    }

    /** Writes a whole packet into the first `packetLength` bytes of `buf`. */
    method Fill(buf: array<byte>, f: Fields)
      requires Encodable(f) && |Encode(f)| <= buf.Length
      modifies buf
      ensures buf[..|Encode(f)|] == Encode(f)
      ensures forall k | |Encode(f)| <= k < buf.Length :: buf[k] == old(buf[k])
    {
      hide Words, Header, ExtensionBytes;
      ExtensionSize(f.extension);
      var offset := Put(buf, 0, Header(f));
      assert buf[..offset] == Header(f);
      offset := PutWords(buf, offset, f.csrcs);
      offset := Put(buf, offset, ExtensionBytes(f.extension));
      offset := Put(buf, offset, f.payload);
      assert buf[..offset] == Encode(f);
    }

    method SetFields(f: Fields, extId: uint16, extensionLength: nat)
      requires f.extension.Extension? ==> extId == f.extension.id && extensionLength == |f.extension.data|
      modifies this
      ensures Describes(f) && packet == old(packet) && packetLength == old(packetLength)
    {
      hasMarker, hasExtension, numCsrcs := f.marker, f.extension.Extension?, |f.csrcs|;
      payloadType, extSeqNr, timestamp, ssrc := f.payloadType, f.seqNr, f.timestamp, f.ssrc;
      payloadLength, this.extId, this.extensionLength := |f.payload|, extId, extensionLength;
    }

    /** `BuildPacket`; `maxsize` 0 means no limit, and `buffer` is the external buffer, if any. When
        there is no extension the source still copies its identifier and length into the object. */
    method BuildPacket(f: Fields, extId: uint16, extensionWords: uint16, buffer: array?<byte>, maxsize: nat)
        returns (status: Status)
      requires ExtensionOk(f.extension)
      requires f.extension.Extension? ==> extId == f.extension.id && 4 * extensionWords == |f.extension.data|
      requires buffer != null ==> buffer.Length == maxsize > 0
      modifies this, buffer
      ensures status ==
        if |f.csrcs| > MAXCSRCS then Failure(TooManyCSRCs)
        else if f.payloadType > 127 || f.payloadType in {72, 73} then Failure(BadPayloadType)
        else if maxsize > 0 && |Encode(f)| > maxsize then Failure(DataExceedsMaxSize)
        else Success
      ensures status.Success? ==>
        && Describes(f) && packet != null && (packet == buffer || (buffer == null && fresh(packet)))
        && packetLength == |Encode(f)| <= packet.Length && packet[..packetLength] == Encode(f)
        && packet[packetLength - payloadLength..packetLength] == f.payload
      ensures buffer != null ==>
        forall k | 0 <= k < buffer.Length :: (status.Success? ==> k >= packetLength) ==> buffer[k] == old(buffer[k])
    {
      if |f.csrcs| > MAXCSRCS {
        return Failure(TooManyCSRCs);
      }
      if f.payloadType > 127 || f.payloadType == 72 || f.payloadType == 73 {
        return Failure(BadPayloadType);
      }
      ExtensionSize(f.extension);
      var extensionSize := if f.extension.Extension? then 4 + 4 * extensionWords else 0;
      packetLength := HEADERSIZE + 4 * |f.csrcs| + extensionSize + |f.payload|;
      if maxsize > 0 && packetLength > maxsize {
        packetLength := 0;
        return Failure(DataExceedsMaxSize);
      }
      hide Header, Words, ExtensionBytes;
      var buf := buffer;
      if buf == null {
        buf := new byte[packetLength];
      }
      packet := buf;
      SetFields(f, extId, 4 * extensionWords);
      payloadOffset := packetLength - |f.payload|;
      Fill(buf, f);
      FourParts(Header(f), Words(f.csrcs), ExtensionBytes(f.extension), f.payload);
      assert buf[payloadOffset..packetLength] == buf[..packetLength][payloadOffset..];
      status := Success;
    }

    /** The checks of `ParseRawPacket`; `headerAt` is where a header extension would start. */
    method CheckLengths(raw: array<byte>) returns (ok: bool, headerAt: nat, offset: nat, numPadBytes: nat)
      requires ExtensionHeaderReadable(raw[..])
      ensures ok <==> Parse(raw[..]).Valid?
      ensures ok ==>
        && headerAt == HEADERSIZE + 4 * CsrcCount(raw[..]) && offset == PayloadOffset(raw[..])
        && numPadBytes == PaddingOf(raw[..])
    {
      ok, headerAt, offset, numPadBytes := false, 0, 0, 0;
      if raw.Length < HEADERSIZE || raw[0] / 0x40 != 2 {
        return;
      }
      var marker, pt := raw[1] / 0x80 == 1, raw[1] % 0x80;
      if marker && (pt == 200 % 0x80 || pt == 201 % 0x80) {
        return;
      }
      if raw[0] / 0x20 % 2 == 1 {
        numPadBytes := raw[raw.Length - 1];
        if numPadBytes <= 0 {
          return;
        }
      }
      headerAt := HEADERSIZE + 4 * (raw[0] % 0x10);
      offset := headerAt;
      if raw[0] / 0x10 % 2 == 1 {
        var words: int := U16(raw[..], headerAt + 2);
        offset := offset + 4 + 4 * words;
      }
      ok := raw.Length - numPadBytes - offset >= 0;
    }

    method ReadFields(bytes: seq<byte>, headerAt: nat)
      requires |bytes| >= HEADERSIZE && (HasExtension(bytes) ==> headerAt + 4 <= |bytes|)
      modifies this
      ensures packet == old(packet)
      ensures hasExtension == HasExtension(bytes) && hasMarker == (bytes[1] >= 0x80)
      ensures numCsrcs == CsrcCount(bytes) && payloadType == bytes[1] % 0x80
      ensures extSeqNr == U16(bytes, 2) && timestamp == U32(bytes, 4) && ssrc == U32(bytes, 8)
      ensures hasExtension ==>
        extId == U16(bytes, headerAt) && extensionLength == 4 * U16(bytes, headerAt + 2)
        && extensionOffset == headerAt + 4
    {
      hide U16, U32;
      hasExtension := bytes[0] / 0x10 % 2 == 1;
      if hasExtension {
        extId := U16(bytes, headerAt);
        extensionLength := 4 * U16(bytes, headerAt + 2);
        extensionOffset := headerAt + 4;
      }
      hasMarker, numCsrcs, payloadType := bytes[1] / 0x80 == 1, bytes[0] % 0x10, bytes[1] % 0x80;
      extSeqNr, timestamp, ssrc := U16(bytes, 2), U32(bytes, 4), U32(bytes, 8);
    }

    /** `ParseRawPacket` */
    method ParseRawPacket(raw: array<byte>, isRtp: bool) returns (status: Status)
      requires ExtensionHeaderReadable(raw[..])
      modifies this
      ensures status.Success? <==> isRtp && Parse(raw[..]).Valid?
      ensures status.Success? ==>
        var f := Parse(raw[..]).fields;
        && Describes(f) && packet == raw && packetLength == raw.Length
        && payloadOffset + payloadLength <= raw.Length && raw[payloadOffset..payloadOffset + payloadLength] == f.payload
        && (hasExtension ==> extensionOffset + extensionLength == payloadOffset)
        && (hasExtension ==> raw[extensionOffset..payloadOffset] == f.extension.data)
      ensures status.Failure? ==> status == Failure(InvalidPacket) && packet == old(packet)
    {
      hide U16, U32, ReadWords;
      if !isRtp {
        return Failure(InvalidPacket);
      }
      var ok, headerAt, offset, numPadBytes := CheckLengths(raw);
      if !ok {
        return Failure(InvalidPacket);
      }
      ReadFields(raw[..], headerAt);
      packet, packetLength, payloadOffset, payloadLength := raw, raw.Length, offset, raw.Length - numPadBytes - offset;
      status := Success;
    }

    /** `GetCSRC`: an index past the end gives 0. */
    method GetCSRC(num: nat) returns (r: uint32)
      requires packet != null && HEADERSIZE + 4 * numCsrcs <= packet.Length
      ensures r == if num < numCsrcs then ReadWords(packet[..], HEADERSIZE, numCsrcs)[num] else 0
    {
      if num >= numCsrcs {
        return 0;
      }
      r := U32(packet[..], HEADERSIZE + 4 * num);
      ReadWordsAt(packet[..], HEADERSIZE, numCsrcs, num);
    }
  }
}
