/** Framing of RTP and RTCP packets on a TCP stream (RFC 4571, section 2), as done by
    `RTPTCPTransmitter`: two length bytes in network order before every packet. */
module TcpFraming {
  import opened Bytes

  const MAXPACKSIZE: int := 65535

  datatype Error = SpecifiedSizeTooBig | ErrorInRecv
  datatype Status = Success | Failure(error: Error)

  /** `RTPRawPacket`: a received frame and whether it goes to the RTP or the RTCP side. */
  datatype RawPacket = RawPacket(data: seq<byte>, isRtp: bool)

  // ---------------------------------------------------------------- reference semantics

  /** A byte stream cut into its completed frames and the unfinished tail. */
  datatype Deframed = Deframed(frames: seq<seq<byte>>, rest: seq<byte>)

  predicate Complete(s: seq<byte>) {
    |s| >= 2 && |s| >= 2 + U16(s, 0)
  }

  function Deframe(s: seq<byte>): Deframed
    decreases |s|
  {
    if !Complete(s) then Deframed([], s)
    else
      var n := 2 + U16(s, 0);
      var d := Deframe(s[n..]);
      Deframed([s[2..n]] + d.frames, d.rest)
  }

  function EncodeFrame(data: seq<byte>): seq<byte>
    requires |data| <= MAXPACKSIZE
  {
    BE16(|data|) + data
  }

  function EncodeAll(frames: seq<seq<byte>>): seq<byte>
    requires forall f | f in frames :: |f| <= MAXPACKSIZE
  {
    if frames == [] then [] else EncodeFrame(frames[0]) + EncodeAll(frames[1..])
  }

  /** A frame longer than an RTCP header whose second byte is 200..204 is taken for RTCP. */
  function Classify(frame: seq<byte>): RawPacket {
    RawPacket(frame, !(|frame| > 4 && 200 <= frame[1] <= 204))
  }

  function ClassifyAll(frames: seq<seq<byte>>): seq<RawPacket> {
    seq(|frames|, i requires 0 <= i < |frames| => Classify(frames[i]))
  }

  // ---------------------------------------------------------------- laws of the semantics

  /** Deframing a stream can be interrupted anywhere and resumed with the tail. */
  lemma {:induction false} DeframeAppend(a: seq<byte>, b: seq<byte>)
    ensures Deframe(a + b).frames == Deframe(a).frames + Deframe(Deframe(a).rest + b).frames
    ensures Deframe(a + b).rest == Deframe(Deframe(a).rest + b).rest
    decreases |a|
  {
    if Complete(a) {
      var n := 2 + U16(a, 0);
      assert U16(a + b, 0) == U16(a, 0);
      assert (a + b)[n..] == a[n..] + b;
      assert (a + b)[2..n] == a[2..n];
      DeframeAppend(a[n..], b);
    }
  }

  /** The tail never holds a whole frame. */
  lemma {:induction false} RestIsIncomplete(s: seq<byte>)
    ensures !Complete(Deframe(s).rest)
    decreases |s|
  {
    if Complete(s) {
      RestIsIncomplete(s[2 + U16(s, 0)..]);
    }
  }

  lemma DeframeOne(f: seq<byte>, tail: seq<byte>)
    requires |f| <= MAXPACKSIZE
    ensures Deframe(EncodeFrame(f) + tail) == Deframed([f] + Deframe(tail).frames, Deframe(tail).rest)
  {
    var s := EncodeFrame(f) + tail;
    assert U16(s, 0) == |f|;
    assert s[2..2 + |f|] == f;
    assert s[2 + |f|..] == tail;
  }

  /** Sender and receiver agree: the stream of any list of frames, followed by any unfinished
      tail, deframes to that list and that tail. */
  lemma {:induction false} DeframeEncodeAll(frames: seq<seq<byte>>, tail: seq<byte>)
    requires forall f | f in frames :: |f| <= MAXPACKSIZE
    requires !Complete(tail)
    ensures Deframe(EncodeAll(frames) + tail) == Deframed(frames, tail)
  {
    if frames == [] {
      assert EncodeAll(frames) + tail == tail;
    } else {
      DeframeEncodeAll(frames[1..], tail);
      Assoc(EncodeFrame(frames[0]), EncodeAll(frames[1..]), tail);
      DeframeOne(frames[0], EncodeAll(frames[1..]) + tail);
    }
  }

  /** Deframing loses nothing: framing the result again gives the stream back. */
  lemma {:induction false} Reframe(s: seq<byte>)
    ensures forall f | f in Deframe(s).frames :: |f| <= MAXPACKSIZE
    ensures EncodeAll(Deframe(s).frames) + Deframe(s).rest == s
    decreases |s|
  {
    hide EncodeFrame, Complete, U16;
    if Complete(s) {
      FrontFrame(s);
      var n: nat := 2 + U16(s, 0);
      Reframe(s[n..]);
      var tail := Deframe(s[n..]);
      var frame := s[2..n];
      assert ([frame] + tail.frames)[1..] == tail.frames;
      Assoc(EncodeFrame(frame), EncodeAll(tail.frames), tail.rest);
      assert s[..n] + s[n..] == s;
    }
  }

  lemma FrontFrame(s: seq<byte>)
    requires Complete(s)
    ensures 2 + U16(s, 0) <= |s| && U16(s, 0) <= MAXPACKSIZE
    ensures EncodeFrame(s[2..2 + U16(s, 0)]) == s[..2 + U16(s, 0)]
  {
    WriteRead16(s, 0);
  }

  /** What has arrived of a stream of frames yields exactly the frames that have arrived whole. */
  lemma PrefixYieldsCompletedFrames(frames: seq<seq<byte>>, arrived: nat)
    requires forall f | f in frames :: |f| <= MAXPACKSIZE
    requires arrived <= |EncodeAll(frames)|
    ensures
      var stream := EncodeAll(frames);
      var d := Deframe(stream[..arrived]);
      var k := |d.frames|;
      && k <= |frames| && d.frames == frames[..k]
      && EncodeAll(frames[..k]) + d.rest == stream[..arrived]
      && (k < |frames| ==> arrived < |EncodeAll(frames[..k])| + |EncodeFrame(frames[k])|)
  {
    var stream := EncodeAll(frames);
    var a, b := stream[..arrived], stream[arrived..];
    var d := Deframe(a);
    assert a + b == stream == stream + [];
    DeframeEncodeAll(frames, []);
    DeframeAppend(a, b);
    Reframe(a);
    var k := |d.frames|;
    assert d.frames == frames[..k];
    if k < |frames| {
      RestIsIncomplete(a);
      Reframe(d.rest + b);
      assert Deframe(d.rest + b).frames == frames[k..];
      NextFrame(d.rest, b, frames[k]);
    }
  }

  lemma NextFrame(rest: seq<byte>, b: seq<byte>, frame: seq<byte>)
    requires !Complete(rest)
    requires Deframe(rest + b).frames != [] && Deframe(rest + b).frames[0] == frame
    ensures |rest| < 2 + |frame|
  {
    if |rest| >= 2 {
      assert U16(rest + b, 0) == U16(rest, 0);
    }
  }

  /** Polling after every arriving chunk, starting with `held` bytes of an unfinished frame. */
  function PollEach(held: seq<byte>, chunks: seq<seq<byte>>): Deframed
    decreases |chunks|
  {
    if chunks == [] then Deframed([], held)
    else
      var d := Deframe(held + chunks[0]);
      var e := PollEach(d.rest, chunks[1..]);
      Deframed(d.frames + e.frames, e.rest)
  }

  /** The frames delivered, and the bytes kept, do not depend on how the stream was cut. */
  lemma {:induction false} ChunkingDoesNotMatter(held: seq<byte>, chunks: seq<seq<byte>>)
    requires !Complete(held)
    ensures PollEach(held, chunks) == Deframe(held + Concat(chunks))
    decreases |chunks|
  {
    if chunks == [] {
      assert held + Concat(chunks) == held;
    } else {
      var first := held + chunks[0];
      RestIsIncomplete(first);
      ChunkingDoesNotMatter(Deframe(first).rest, chunks[1..]);
      DeframeAppend(first, Concat(chunks[1..]));
      Assoc(held, chunks[0], Concat(chunks[1..]));
    }
  }

  /** End to end: however the stream of the frames that were sent is cut on its way, polling after
      every piece delivers those frames, in order, and keeps nothing. */
  lemma SentIsReceived(frames: seq<seq<byte>>, chunks: seq<seq<byte>>)
    requires forall f | f in frames :: |f| <= MAXPACKSIZE
    requires Concat(chunks) == EncodeAll(frames)
    ensures PollEach([], chunks) == Deframed(frames, [])
  {
    ChunkingDoesNotMatter([], chunks);
    DeframeEncodeAll(frames, []);
    assert [] + Concat(chunks) == EncodeAll(frames) + [];
  }

  // ---------------------------------------------------------------- the transmitter

  /** A connected socket seen from this process: the bytes that have arrived and were not read. */
  class Socket {
    var pending: seq<byte>
    var sent: seq<byte>

    /** `recv`: fails, or returns any nonempty prefix of what is pending, at most `num` bytes. */
    method Recv(num: nat) returns (r: int, got: seq<byte>)
      requires 0 < num <= |pending|
      modifies this`pending
      ensures r < 0 ==> got == [] && pending == old(pending)
      ensures r >= 0 ==> 1 <= r <= num && got == old(pending)[..r] && pending == old(pending)[r..]
    {
      got := [];
      if * {
        r := -1;
      } else {
        r :| 1 <= r <= num;
        got := pending[..r];
        pending := pending[r..];
      }
    }

    /** `send`: fails, or takes any prefix of the data. */
    method Send(data: seq<byte>) returns (r: int)
      modifies this`sent
      ensures r < 0 ==> sent == old(sent)
      ensures r >= 0 ==> r <= |data| && sent == old(sent) + data[..r]
    {
      if * {
        r := -1;
      } else {
        r :| 0 <= r <= |data|;
        sent := sent + data[..r];
      }
    }
  }

  /** The part of a frame read so far. */
  class SocketData {
    const lengthBuffer: array<byte>
    var lengthBufferOffset: nat
    var dataLength: nat
    var dataBufferOffset: nat
    var dataBuffer: array?<byte>

    ghost predicate Valid()
      reads this, lengthBuffer, dataBuffer
    {
      && lengthBuffer.Length == 2
      && lengthBufferOffset <= 2
      && (dataBuffer == null <==> lengthBufferOffset < 2)
      && (dataBuffer == null ==> dataLength == 0 && dataBufferOffset == 0)
      && (dataBuffer != null ==>
            && dataBuffer != lengthBuffer
            && dataLength == U16(lengthBuffer[..], 0)
            && dataBufferOffset <= dataLength <= dataBuffer.Length)
    }

    /** The bytes of the current frame that have been read. */
    ghost function Held(): seq<byte>
      requires Valid()
      reads this, lengthBuffer, dataBuffer
    {
      lengthBuffer[..lengthBufferOffset] + if dataBuffer == null then [] else dataBuffer[..dataBufferOffset]
    }

    constructor ()
      ensures Valid() && Held() == [] && fresh(lengthBuffer) && dataBuffer == null
    {
      lengthBuffer := new byte[2];
      lengthBufferOffset, dataLength, dataBufferOffset, dataBuffer := 0, 0, 0, null;
    }

    method Reset()
      requires Valid()
      modifies this
      ensures Valid() && Held() == [] && dataBuffer == null
    {
      lengthBufferOffset, dataLength, dataBufferOffset, dataBuffer := 0, 0, 0, null;
    }

    /** First half of `ProcessAvailableBytes`: read length bytes and size the data buffer. */
    method ReadLength(sock: Socket, avail: nat) returns (status: Status, left: nat)
      requires Valid() && lengthBufferOffset < 2
      requires 0 < avail <= |sock.pending|
      modifies this, lengthBuffer, sock`pending
      ensures Valid() && (dataBuffer == null || fresh(dataBuffer))
      ensures Held() + sock.pending == old(Held() + sock.pending)
      ensures status.Success? ==> left <= |sock.pending| < |old(sock.pending)|
      ensures dataBuffer != null ==> dataBufferOffset == 0 && status.Success?
      ensures status.Failure? ==> sock.pending == old(sock.pending)
    {
      var num := Min(2 - lengthBufferOffset, avail);
      var r, got := sock.Recv(num);
      if r < 0 {
        return Failure(ErrorInRecv), avail;
      }
      ghost var before := lengthBuffer[..lengthBufferOffset];
      Store(lengthBuffer, lengthBufferOffset, got);
      lengthBufferOffset := lengthBufferOffset + r;
      assert lengthBuffer[..lengthBufferOffset] == before + got;
      left := avail - r;
      if lengthBufferOffset == 2 {
        SizeBuffer();
      }
      assert old(sock.pending) == got + sock.pending;
      assert Held() == before + got;
      Assoc(before, got, sock.pending);
      status := Success;
    }

    /** The length is known: a buffer of that size, or of one byte for an empty frame. */
    method SizeBuffer()
      requires lengthBuffer.Length == 2 && lengthBufferOffset == 2
      modifies this`dataLength, this`dataBufferOffset, this`dataBuffer
      ensures Valid() && fresh(dataBuffer) && dataBufferOffset == 0 && Held() == lengthBuffer[..]
    {
      dataLength := lengthBuffer[0] as int * 0x100 + lengthBuffer[1];
      dataBufferOffset := 0;
      dataBuffer := new byte[if dataLength == 0 then 1 else dataLength];
      assert lengthBuffer[..2] == lengthBuffer[..] && dataBuffer[..0] == [];
    }

    /** A frame is whole exactly when the data buffer is full, and then it is what was announced. */
    lemma WhenComplete()
      requires Valid()
      ensures Complete(Held()) <==> dataBuffer != null && dataBufferOffset == dataLength
      ensures Complete(Held()) ==>
        |dataBuffer[..dataLength]| <= MAXPACKSIZE && Held() == EncodeFrame(dataBuffer[..dataLength])
    {
      if dataBuffer != null {
        assert lengthBuffer[..2] == lengthBuffer[..];
        HeldIsFrame(lengthBuffer[..], dataBuffer[..dataBufferOffset]);
      }
    }

    /** Second half of `ProcessAvailableBytes`: read data bytes. */
    method ReadData(sock: Socket, avail: nat) returns (status: Status)
      requires Valid() && dataBuffer != null && avail <= |sock.pending|
      modifies dataBuffer, this`dataBufferOffset, sock`pending
      ensures Valid() && Held() + sock.pending == old(Held() + sock.pending)
      ensures status.Success? && avail > 0 && old(dataBufferOffset) < dataLength ==>
        |sock.pending| < |old(sock.pending)|
      ensures status.Failure? ==> dataBufferOffset == old(dataBufferOffset) < dataLength
      ensures |sock.pending| <= |old(sock.pending)|
    {
      if dataBufferOffset < dataLength {
        var num := Min(dataLength - dataBufferOffset, avail);
        if num > 0 {
          var r, got := sock.Recv(num);
          if r < 0 {
            return Failure(ErrorInRecv);
          }
          ghost var length, before := lengthBuffer[..lengthBufferOffset], dataBuffer[..dataBufferOffset];
          Store(dataBuffer, dataBufferOffset, got);
          dataBufferOffset := dataBufferOffset + r;
          assert dataBuffer[..dataBufferOffset] == before + got;
          assert old(sock.pending) == got + sock.pending;
          assert length + (before + got) + sock.pending == length + before + (got + sock.pending);
        }
      }
      status := Success;
    }

    /** Reads at most `avail` bytes from the socket; `complete` tells that a frame is whole.
        No byte is lost or invented, and every call that succeeds makes progress. */
    method ProcessAvailableBytes(sock: Socket, avail: nat) returns (status: Status, complete: bool)
      requires Valid() && !Complete(Held())
      requires 0 < avail <= |sock.pending|
      modifies this, lengthBuffer, dataBuffer, sock`pending
      ensures Valid() && (dataBuffer == old(dataBuffer) || fresh(dataBuffer))
      ensures Held() + sock.pending == old(Held() + sock.pending)
      ensures status.Success? ==> |sock.pending| < |old(sock.pending)|
      ensures status.Failure? ==> !Complete(Held()) && !complete
      ensures status.Success? ==> (complete <==> Complete(Held()))
      ensures complete ==> dataBuffer != null && Held() == EncodeFrame(dataBuffer[..dataLength])
    {
      hide Complete, EncodeFrame, U16;
      WhenComplete();
      complete := false;
      var left := avail;
      if lengthBufferOffset < 2 {
        status, left := ReadLength(sock, avail);
        if status.Failure? {
          WhenComplete();
          return;
        }
      }
      if lengthBufferOffset == 2 && dataBuffer != null {
        status := ReadData(sock, left);
        WhenComplete();
        if status.Failure? {
          return;
        }
        complete := dataBufferOffset == dataLength;
      }
      WhenComplete();
      status := Success;
    }
  }

  lemma HeldIsFrame(length: seq<byte>, data: seq<byte>)
    requires |length| == 2
    ensures Complete(length + data) <==> |data| >= U16(length, 0)
    ensures U16(length, 0) <= MAXPACKSIZE
    ensures |data| == U16(length, 0) ==> length + data == EncodeFrame(data)
  {
  }

  /** Delivering `done` and going on with `later` is deframing `all`. */
  ghost predicate Resumes(all: seq<byte>, done: seq<seq<byte>>, later: seq<byte>) {
    Deframe(all) == Deframed(done + Deframe(later).frames, Deframe(later).rest)
  }

  lemma ResumesTrans(a: seq<byte>, d: seq<seq<byte>>, b: seq<byte>, e: seq<seq<byte>>, c: seq<byte>)
    requires Resumes(a, d, b) && Resumes(b, e, c)
    ensures Resumes(a, d + e, c)
    ensures ClassifyAll(d + e) == ClassifyAll(d) + ClassifyAll(e)
  {
    Assoc(d, e, Deframe(c).frames);
  }

  /** The receiving side of `RTPTCPTransmitter` for one connection. */
  class Receiver {
    const sdata: SocketData
    var rawpacketlist: seq<RawPacket>

    constructor ()
      ensures fresh(sdata) && fresh(sdata.lengthBuffer) && sdata.Valid() && sdata.Held() == []
      ensures rawpacketlist == []
    {
      sdata := new SocketData();
      rawpacketlist := [];
    }

    /** One round of the loop in `PollSocket`; `done` is the frame it queued, if any. */
    method PollOnce(sock: Socket) returns (status: Status, ghost done: seq<seq<byte>>)
      requires sdata.Valid() && !Complete(sdata.Held()) && sock.pending != []
      modifies this, sdata, sdata.lengthBuffer, sdata.dataBuffer, sock`pending
      ensures sdata.Valid() && !Complete(sdata.Held())
      ensures sdata.dataBuffer in {null, old(sdata.dataBuffer)} || fresh(sdata.dataBuffer)
      ensures rawpacketlist == old(rawpacketlist) + ClassifyAll(done)
      ensures Resumes(old(sdata.Held() + sock.pending), done, sdata.Held() + sock.pending)
      ensures status.Success? ==> |sock.pending| < |old(sock.pending)|
    {
      done := [];
      var complete;
      status, complete := sdata.ProcessAvailableBytes(sock, Min(|sock.pending|, MAXPACKSIZE + 2));
      assert ClassifyAll([]) == [];
      if complete {
        var frame := sdata.dataBuffer[..sdata.dataLength];
        sdata.Reset();
        rawpacketlist := rawpacketlist + [Classify(frame)];
        done := [frame];
        assert ClassifyAll(done) == [Classify(frame)];
        DeframeOne(frame, sock.pending);
        assert sdata.Held() + sock.pending == sock.pending;
      }
    }

    /** Drains the socket. Whatever `recv` returns on the way, the packets queued (`done`) are the
        frames that the held and pending bytes complete, in order, and the tail stays in `sdata`.
        When `recv` fails, nothing is lost: `done` followed by what is still held or pending
        deframes to the same. */
    method PollSocket(sock: Socket) returns (status: Status, ghost done: seq<seq<byte>>)
      requires sdata.Valid() && !Complete(sdata.Held())
      modifies this, sdata, sdata.lengthBuffer, sdata.dataBuffer, sock`pending
      ensures sdata.Valid() && !Complete(sdata.Held())
      ensures sdata.dataBuffer in {null, old(sdata.dataBuffer)} || fresh(sdata.dataBuffer)
      ensures rawpacketlist == old(rawpacketlist) + ClassifyAll(done)
      ensures Resumes(old(sdata.Held() + sock.pending), done, sdata.Held() + sock.pending)
      ensures status.Success? ==> sock.pending == []
      ensures status.Success? ==> Deframe(old(sdata.Held() + sock.pending)) == Deframed(done, sdata.Held())
    {
      done := [];
      var dataAvailable := true;
      status := Success;
      assert ClassifyAll([]) == [];
      while dataAvailable
        invariant sdata.Valid() && !Complete(sdata.Held()) && status.Success?
        invariant sdata.dataBuffer in {null, old(sdata.dataBuffer)} || fresh(sdata.dataBuffer)
        invariant rawpacketlist == old(rawpacketlist) + ClassifyAll(done)
        invariant Resumes(old(sdata.Held() + sock.pending), done, sdata.Held() + sock.pending)
        invariant !dataAvailable ==> sock.pending == []
        decreases |sock.pending|, dataAvailable
      {
        dataAvailable := |sock.pending| > 0;
        if dataAvailable {
          ghost var before, some := sdata.Held() + sock.pending, [];
          status, some := PollOnce(sock);
          ResumesTrans(old(sdata.Held() + sock.pending), done, before, some, sdata.Held() + sock.pending);
          done := done + some;
          if status.Failure? {
            return;
          }
        }
      }
      assert sdata.Held() + sock.pending == sdata.Held();
    }
  }

  /** How a packet fared on one connection: sent whole, cut short without notice, or refused. */
  datatype Fate = Whole | Short | Refused

  /** What a connection has taken of a packet, given the bytes it took before. */
  ghost predicate Taken(before: seq<byte>, after: seq<byte>, data: seq<byte>, fate: Fate)
    requires |data| <= MAXPACKSIZE
  {
    if fate == Whole then after == before + EncodeFrame(data)
    else
      exists a, b ::
        && 0 <= a <= 2 && 0 <= b <= |data| && (fate == Short ==> a + b < 2 + |data|)
        && after == before + BE16(|data|)[..a] + data[..b]
  }

  /** Sends one packet on one connection. How much `send` took is not looked at. */
  method SendTo(sock: Socket, data: seq<byte>) returns (ok: bool, ghost fate: Fate)
    requires |data| <= MAXPACKSIZE
    modifies sock`sent
    ensures Taken(old(sock.sent), sock.sent, data, fate) && (ok <==> fate != Refused)
  {
    ghost var before := sock.sent;
    var lengthBytes: seq<byte> := [|data| / 0x100 % 0x100, |data| % 0x100];
    assert lengthBytes == BE16(|data|);
    var a := sock.Send(lengthBytes);
    if a < 0 {
      fate := Refused;
      assert sock.sent == before + BE16(|data|)[..0] + data[..0];
      return false, fate;
    }
    var b := sock.Send(data);
    if b < 0 {
      fate := Refused;
      assert sock.sent == before + BE16(|data|)[..a] + data[..0];
      return false, fate;
    }
    assert sock.sent == before + BE16(|data|)[..a] + data[..b];
    fate := if a == 2 && b == |data| then Whole else Short;
    ok := true;
  }

  /** The connections that refused the packet. */
  function Refusing(socks: seq<Socket>, fates: seq<Fate>): seq<Socket>
    requires |fates| == |socks|
  {
    if socks == [] then []
    else
      var last := |socks| - 1;
      Refusing(socks[..last], fates[..last]) + if fates[last] == Refused then [socks[last]] else []
  }

  /** Sends one packet on every connection. Connections that refuse it are reported to the application;
      one that takes only part of it is not noticed, and no error is returned for either. */
  method SendRTPRTCPData(destSockets: seq<Socket>, data: seq<byte>)
    returns (status: Status, errSockets: seq<Socket>, ghost fates: seq<Fate>)
    requires forall i, j | 0 <= i < j < |destSockets| :: destSockets[i] != destSockets[j]
    modifies set s <- destSockets
    ensures |data| > MAXPACKSIZE ==>
      && status == Failure(SpecifiedSizeTooBig) && errSockets == []
      && forall s <- destSockets :: s.sent == old(s.sent)
    ensures |data| <= MAXPACKSIZE ==>
      && status == Success && |fates| == |destSockets| && errSockets == Refusing(destSockets, fates)
      && forall i | 0 <= i < |destSockets| :: Taken(old(destSockets[i].sent), destSockets[i].sent, data, fates[i])
    ensures forall s <- destSockets :: s.pending == old(s.pending)
  {
    errSockets, fates := [], [];
    if |data| > MAXPACKSIZE {
      return Failure(SpecifiedSizeTooBig), errSockets, fates;
    }
    for it := 0 to |destSockets|
      invariant |fates| == it && errSockets == Refusing(destSockets[..it], fates)
      invariant forall i | 0 <= i < it :: Taken(old(destSockets[i].sent), destSockets[i].sent, data, fates[i])
      invariant forall i | it <= i < |destSockets| :: destSockets[i].sent == old(destSockets[i].sent)
      invariant forall s <- destSockets :: s.pending == old(s.pending)
    {
      ghost var fate;
      var ok;
      ok, fate := SendTo(destSockets[it], data);
      if !ok {
        errSockets := errSockets + [destSockets[it]];
      }
      assert destSockets[..it + 1][..it] == destSockets[..it] && (fates + [fate])[..it] == fates;
      fates := fates + [fate];
    }
    assert destSockets[..|destSockets|] == destSockets;
    status := Success;
  }
}
