/** RTCP compound packets (section 6.1 and appendix A.2 of RFC 3550): `RTCPCompoundPacket::ParseData`
    of rtcpcompoundpacket.cpp. */
module CompoundPacket {
  import opened Bytes
  import opened RtcpPackets
  import SdesReader

  datatype Error = InvalidPacket
  datatype Status = Success | Failure(error: Error)

  // ---------------------------------------------------------------- what a compound packet is

  /** A version 2 packet whose length field is its length. */
  predicate PacketOk(p: seq<byte>) {
    |p| >= 4 && Version(p) == 2 && AnnouncedSize(p) == |p|
  }

  /** A list of such packets, padding allowed only on the last. */
  ghost predicate PacketsOk(ps: seq<seq<byte>>) {
    forall i | 0 <= i < |ps| :: PacketOk(ps[i]) && (i + 1 < |ps| ==> !HasPadding(ps[i]))
  }

  /** A nonempty list of such packets, the first an SR or RR. */
  ghost predicate IsCompound(ps: seq<seq<byte>>) {
    ps != [] && PacketsOk(ps) && Type(ps[0]) in {SR, RR}
  }

  /** Whether the class for its packet type finds the format known. */
  predicate Known(p: seq<byte>)
    requires |p| >= 4
  {
    if Type(p) in {SR, RR} then KnownReport(p, Type(p))
    else if Type(p) == SDES then SdesReader.KnownSdes(p)
    else if Type(p) == BYE then KnownBye(p)
    else if Type(p) == APP then KnownApp(p)
    else true
  }

  /** An entry of the packet list. */
  datatype PacketInfo = PacketInfo(packetType: byte, offset: nat, length: nat, known: bool)

  function InfoOf(p: seq<byte>, offset: nat): PacketInfo
    requires |p| >= 4
  {
    PacketInfo(Type(p), offset, |p|, Known(p))
  }

  /** The packet list for packets that lie one after the other from `offset` on. */
  function Infos(ps: seq<seq<byte>>, offset: nat): seq<PacketInfo>
    requires forall p | p in ps :: |p| >= 4
    decreases |ps|
  {
    if ps == [] then [] else [InfoOf(ps[0], offset)] + Infos(ps[1..], offset + |ps[0]|)
  }

  // ---------------------------------------------------------------- cutting a buffer

  /** The first packet of a buffer can be cut off. */
  predicate HeadOk(s: seq<byte>) {
    |s| >= 4 && Version(s) == 2 && AnnouncedSize(s) <= |s| && (HasPadding(s) ==> AnnouncedSize(s) == |s|)
  }

  function Split(s: seq<byte>): Option<seq<seq<byte>>>
    decreases |s|
  {
    if s == [] then Some([])
    else if !HeadOk(s) then None
    else
      var n := AnnouncedSize(s);
      var rest := Split(s[n..]);
      if rest.None? then None else Some([s[..n]] + rest.value)
  }

  function Parse(s: seq<byte>): Option<seq<seq<byte>>> {
    if |s| >= 4 && Type(s) in {SR, RR} then Split(s) else None
  }

  lemma HeaderOfPrefix(s: seq<byte>, n: nat)
    requires 4 <= n <= |s|
    ensures Version(s[..n]) == Version(s) && Type(s[..n]) == Type(s) && Count(s[..n]) == Count(s)
    ensures HasPadding(s[..n]) == HasPadding(s) && AnnouncedSize(s[..n]) == AnnouncedSize(s)
  {
  }

  lemma PacketsOkTail(ps: seq<seq<byte>>)
    requires ps != []
    ensures PacketsOk(ps) <==> PacketOk(ps[0]) && (|ps| > 1 ==> !HasPadding(ps[0])) && PacketsOk(ps[1..])
  {
    hide Version, HasPadding, AnnouncedSize;
    if PacketsOk(ps) {
      forall i | 0 <= i < |ps[1..]|
        ensures PacketOk(ps[1..][i]) && (i + 1 < |ps[1..]| ==> !HasPadding(ps[1..][i]))
      {
        assert PacketOk(ps[i + 1]);
      }
    }
    if PacketOk(ps[0]) && (|ps| > 1 ==> !HasPadding(ps[0])) && PacketsOk(ps[1..]) {
      forall i | 0 <= i < |ps|
        ensures PacketOk(ps[i]) && (i + 1 < |ps| ==> !HasPadding(ps[i]))
      {
        assert i > 0 ==> PacketOk(ps[1..][i - 1]);
      }
    }
  }

  lemma {:induction false} SplitSound(s: seq<byte>)
    requires Split(s).Some?
    ensures
      var ps := Split(s).value;
      && Concat(ps) == s && PacketsOk(ps)
      && (s != [] ==> ps != [] && Type(ps[0]) == Type(s))
    decreases |s|
  {
    if s != [] {
      hide Version, HasPadding, Type, AnnouncedSize;
      HeadSize(s);
      var n := AnnouncedSize(s);
      HeaderOfPrefix(s, n);
      SplitSound(s[n..]);
      var ps, rest := Split(s).value, Split(s[n..]).value;
      assert ps[1..] == rest;
      PacketsOkTail(ps);
      assert HasPadding(s) ==> s[n..] == [];
    }
  }

  lemma {:induction false} SplitComplete(ps: seq<seq<byte>>)
    requires PacketsOk(ps)
    ensures Split(Concat(ps)) == Some(ps)
    decreases |ps|
  {
    hide Version, HasPadding, AnnouncedSize;
    if ps != [] {
      var s, p := Concat(ps), ps[0];
      PacketsOkTail(ps);
      PacketSize(p);
      assert s[..|p|] == p && s[|p|..] == Concat(ps[1..]);
      HeaderOfPrefix(s, |p|);
      SplitComplete(ps[1..]);
      if |ps| == 1 {
        assert Concat(ps[1..]) == [];
        assert s == p;
      }
      assert HeadOk(s);
      assert [p] + ps[1..] == ps;
    }
  }

  lemma PacketSize(p: seq<byte>)
    requires PacketOk(p)
    ensures |p| >= 4
  {
  }

  /** Parsing succeeds exactly on compound packets, and there is only one way to cut one. */
  lemma ParseExact(s: seq<byte>, ps: seq<seq<byte>>)
    ensures Parse(s) == Some(ps) <==> IsCompound(ps) && Concat(ps) == s
  {
    hide Version, HasPadding, AnnouncedSize;
    if Parse(s) == Some(ps) {
      SplitSound(s);
    }
    if IsCompound(ps) && Concat(ps) == s {
      SplitComplete(ps);
      PacketsOkTail(ps);
      PacketSize(ps[0]);
      assert s[..|ps[0]|] == ps[0];
      HeaderOfPrefix(s, |ps[0]|);
    }
  }

  lemma {:induction false} InfosAppend(ps: seq<seq<byte>>, p: seq<byte>, offset: nat)
    requires (forall q | q in ps :: |q| >= 4) && |p| >= 4
    ensures Infos(ps + [p], offset) == Infos(ps, offset) + [InfoOf(p, offset + |Concat(ps)|)]
    decreases |ps|
  {
    hide InfoOf;
    if ps == [] {
      assert [p][1..] == [];
    } else {
      var next := offset + |ps[0]|;
      assert (ps + [p])[1..] == ps[1..] + [p];
      InfosAppend(ps[1..], p, next);
      assert next + |Concat(ps[1..])| == offset + |Concat(ps)|;
      var head, rest := [InfoOf(ps[0], offset)], Infos(ps[1..], next);
      assert Infos(ps, offset) == head + rest;
      assert head + (rest + [InfoOf(p, offset + |Concat(ps)|)]) == head + rest + [InfoOf(p, offset + |Concat(ps)|)];
    }
  }

  // ---------------------------------------------------------------- the object

  /** Creates the packet object for a packet type and asks it whether the format is known. */
  method Inspect(p: seq<byte>) returns (known: bool)
    requires |p| >= 4
    ensures known == Known(p)
  {
    var packetType := p[1];
    if packetType == SR || packetType == RR {
      var r := new RTCPReportPacket(packetType, p);
      known := r.knownFormat;
    } else if packetType == SDES {
      var d := new SdesReader.RTCPSDESPacket(p);
      known := d.knownFormat;
    } else if packetType == BYE {
      var b := new RTCPBYEPacket(p);
      known := b.knownFormat;
    } else if packetType == APP {
      var a := new RTCPAPPPacket(p);
      known := a.knownFormat;
    } else {
      known := true;
    }
  }

  lemma NothingYet()
    ensures |Concat<byte>([])| == 0 && Infos([], 0) == []
  {
  }

  class RTCPCompoundPacket {
    var rtcpPackList: seq<PacketInfo>

    constructor ()
      ensures rtcpPackList == []
    {
      rtcpPackList := [];
    }

    /** Succeeds exactly when the bytes are a compound packet, and then lists its packets. */
    method ParseData(data: seq<byte>) returns (status: Status)
      requires rtcpPackList == []
      modifies this
      ensures status.Success? <==> Parse(data).Some?
      ensures status.Success? ==>
        (forall p | p in Parse(data).value :: |p| >= 4) && rtcpPackList == Infos(Parse(data).value, 0)
      ensures status.Failure? ==> rtcpPackList == []
    {
      hide Split, Resumes, Known, AnnouncedSize, Concat, Infos, U16;
      if |data| < 4 {
        return Failure(InvalidPacket);
      }
      var offset, first := 0, true;
      NothingYet();
      ResumesStart(data);
      ghost var done: seq<seq<byte>> := [];
      while |data| - offset >= 4
        invariant offset <= |data| && |Concat(done)| == offset
        invariant forall p | p in done :: |p| >= 4
        invariant first <==> done == []
        invariant !first ==> Type(data) in {SR, RR}
        invariant rtcpPackList == Infos(done, 0)
        invariant Resumes(data, done, offset)
        decreases |data| - offset
      {
        var rest := data[offset..];
        ResumesHead(data, done, offset);
        if rest[0] / 0x40 != 2 {
          rtcpPackList := [];
          return Failure(InvalidPacket);
        }
        if first {
          first := false;
          assert rest == data;
          if !(rest[1] == SR || rest[1] == RR) {
            rtcpPackList := [];
            return Failure(InvalidPacket);
          }
        }
        var length: nat := U16(rest, 2);
        length := 4 * (length + 1);
        assert length == AnnouncedSize(rest) by {
          SizeField(rest);
        }
        if length > |rest| {
          rtcpPackList := [];
          return Failure(InvalidPacket);
        }
        if rest[0] / 0x20 % 2 == 1 && length != |rest| {
          rtcpPackList := [];
          return Failure(InvalidPacket);
        }
        var p := rest[..length];
        var known := Inspect(p);
        rtcpPackList := rtcpPackList + [PacketInfo(rest[1], offset, length, known)];
        InfosAppend(done, p, 0);
        ConcatAppend(done, [p]);
        ConcatOne(p);
        ResumesNext(data, done, offset);
        done := done + [p];
        offset := offset + length;
      }
      ResumesHead(data, done, offset);
      if |data| - offset != 0 {
        rtcpPackList := [];
        return Failure(InvalidPacket);
      }
      ResumesEnd(data, done);
      status := Success;
    }
  }

  /** Cutting the whole buffer is cutting what lies behind the packets already `done`. */
  ghost predicate Resumes(data: seq<byte>, done: seq<seq<byte>>, offset: nat)
    requires offset <= |data|
  {
    var rest := Split(data[offset..]);
    Split(data) == if rest.None? then None else Some(done + rest.value)
  }

  lemma ResumesStart(data: seq<byte>)
    ensures Resumes(data, [], 0)
  {
    assert data[0..] == data;
    assert Split(data).Some? ==> [] + Split(data).value == Split(data).value;
  }

  lemma ResumesEnd(data: seq<byte>, done: seq<seq<byte>>)
    requires Resumes(data, done, |data|)
    ensures Split(data) == Some(done)
  {
    assert data[|data|..] == [] && done + [] == done;
  }

  lemma ResumesHead(data: seq<byte>, done: seq<seq<byte>>, offset: nat)
    requires offset <= |data| && Resumes(data, done, offset)
    ensures data[offset..] != [] && !HeadOk(data[offset..]) ==> Split(data).None?
  {
  }

  lemma ResumesNext(data: seq<byte>, done: seq<seq<byte>>, offset: nat)
    requires offset <= |data| && Resumes(data, done, offset) && HeadOk(data[offset..])
    ensures Resumes(data, done + [data[offset..][..AnnouncedSize(data[offset..])]],
                    offset + AnnouncedSize(data[offset..]))
  {
    var rest := data[offset..];
    HeadSize(rest);
    hide HeadOk, AnnouncedSize;
    var n := AnnouncedSize(rest);
    assert rest[n..] == data[offset + n..];
    var tail := Split(rest[n..]);
    if tail.Some? {
      Assoc(done, [rest[..n]], tail.value);
    }
  }

  lemma SizeField(s: seq<byte>)
    requires |s| >= 4
    ensures AnnouncedSize(s) == 4 * (U16(s, 2) + 1)
  {
  }

  lemma HeadSize(s: seq<byte>)
    requires HeadOk(s)
    ensures 4 <= AnnouncedSize(s) <= |s|
  {
  }
}
