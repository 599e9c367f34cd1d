/** One entry of the source table: `RTPSourceData` and `RTPInternalSourceData`. */
module SourceData {
  import opened Bytes
  import opened PacketQueue
  import opened SourceStats

  // ---------------------------------------------------------------- addresses

  /** The three kinds of address the library ships besides IPv6. */
  datatype Address =
    | IPv4Address(ip: uint32, port: uint16)
    | ByteAddress(host: seq<byte>, bytePort: uint16)
    | TCPAddress(socket: int)

  /** The sender of a packet; None is the null address, which stands for our own session. */
  type Sender = Option<Address>

  /** What an entry knows of one of its two addresses. */
  datatype Known = Unset | Set(from: Sender)

  predicate IsSameAddress(a: Address, from: Sender) {
    match (a, from)
    case (IPv4Address(ip, port), Some(IPv4Address(ip2, port2))) => ip == ip2 && port == port2
    case (ByteAddress(host, port), Some(ByteAddress(host2, port2))) => host == host2 && port == port2
    case (TCPAddress(socket), Some(TCPAddress(socket2))) => socket == socket2
    case _ => false
  }

  predicate IsFromSameHost(a: Address, from: Sender) {
    match (a, from)
    case (IPv4Address(ip, _), Some(IPv4Address(ip2, _))) => ip == ip2
    case (ByteAddress(host, _), Some(ByteAddress(host2, _))) => host == host2
    case (TCPAddress(socket), Some(TCPAddress(socket2))) => socket == socket2
    case _ => false
  }

  /** Both from our own session, or both from one host. */
  predicate SameOrigin(a: Sender, b: Sender) {
    match a
    case None => b == None
    case Some(x) => IsFromSameHost(x, b)
  }

  /** Section 8.2 of RFC 3550: a packet collides if its kind of address is known and differs, or is
      not known and the other kind comes from elsewhere. */
  predicate Collides(own: Known, other: Known, from: Sender) {
    if own.Set? then own.from != from else other.Set? && !SameOrigin(other.from, from)
  }

  // ---------------------------------------------------------------- the entry as a value

  datatype ProbationType = NoProbation | ProbationDiscard | ProbationStore

  const NUMITEMS: nat := 7
  const CNAME: nat := 1
  const NAME: nat := 2
  const EMAIL: nat := 3
  const PHONE: nat := 4
  const LOCATION: nat := 5
  const TOOL: nat := 6
  const NOTE: nat := 7

  datatype Entry = Entry(
    ssrc: uint32, probation: ProbationType,
    own: bool, csrc: bool, validated: bool, sender: bool, processed: bool,
    bye: bool, byeTime: Time, stats: Stats, lastNoteTime: Time,
    items: seq<seq<byte>>, rtp: Known, rtcp: Known, queue: seq<Packet>)

  function NewEntry(ssrc: uint32, probation: ProbationType): Entry {
    Entry(ssrc, probation, false, false, false, false, false, false, 0.0, Initial, 0.0,
          [[], [], [], [], [], [], []], Unset, Unset, [])
  }

  predicate IsActive(e: Entry) {
    e.validated && !e.bye
  }

  function Touched(e: Entry, t: Time): Entry {
    e.(stats := e.stats.(timing := e.stats.timing.(lastMsgTime := t)))
  }

  function NoteCleared(e: Entry): Entry
    requires |e.items| == NUMITEMS
  {
    e.(items := e.items[NOTE - 1 := []])
  }

  /** An RTP packet as the entry sees it. */
  function WithPacket(e: Entry, a: Arrival, data: seq<byte>): Entry {
    var r := Process(e.stats, a.(own := e.own), !e.validated && e.probation != NoProbation);
    var counted := e.(stats := r.stats);
    if r.accept || (e.probation == ProbationStore && r.onProbation) then
      var validated := e.validated || r.accept;
      counted.(validated := validated, sender := e.sender || (validated && !e.own),
               queue := Enqueue(e.queue, Packet(r.seqNr, data), validated))
    else counted
  }

  /** An SDES item: CNAME, NAME, EMAIL and TOOL stick once they have a value, the others follow. */
  function WithItem(e: Entry, id: nat, value: seq<byte>, t: Time): Entry
    requires 1 <= id <= NUMITEMS == |e.items|
  {
    var sticks := id in {CNAME, NAME, EMAIL, TOOL} && e.items[id - 1] != [];
    var w := Touched(e, t);
    w.(items := if sticks then e.items else e.items[id - 1 := value],
       validated := e.validated || (id == CNAME && !sticks),
       lastNoteTime := if id == NOTE then t else e.lastNoteTime)
  }

  /** A CNAME that is not the one the entry has. */
  predicate CnameCollides(e: Entry, id: nat, value: seq<byte>)
    requires |e.items| == NUMITEMS
  {
    id == CNAME && e.items[CNAME - 1] != [] && e.items[CNAME - 1] != value
  }

  function SaidBye(e: Entry, t: Time): Entry {
    Touched(e, t).(bye := true, byeTime := t)
  }

  /** What every entry keeps from its creation on. */
  ghost predicate Sound(e: Entry) {
    && Increasing(e.queue)
    && (!e.validated ==> |e.queue| <= MAXPROBATIONPACKETS)
    && |e.items| == NUMITEMS
    && (e.sender || e.own || e.csrc || e.stats.nr.sentData ==> e.validated)
    && (e.rtp.Set? && e.rtcp.Set? ==> SameOrigin(e.rtp.from, e.rtcp.from))
  }

  lemma WithPacketSound(e: Entry, a: Arrival, data: seq<byte>)
    requires Sound(e)
    ensures Sound(WithPacket(e, a, data))
  {
    var r := Process(e.stats, a.(own := e.own), !e.validated && e.probation != NoProbation);
    var p := Packet(r.seqNr, data);
    InsertSound(Trim(e.queue, e.validated || r.accept), p);
    if !e.validated {
      EnqueueBounded(e.queue, p);
    }
    hide Insert, Increasing, SameOrigin;
  }

  lemma SoundQueue(e: Entry)
    requires Sound(e)
    ensures Increasing(e.queue)
  {
  }

  /** A packet never takes back that a source is a sender or active. */
  lemma WithPacketCounts(e: Entry, a: Arrival, data: seq<byte>)
    ensures e.sender ==> WithPacket(e, a, data).sender
    ensures IsActive(e) ==> IsActive(WithPacket(e, a, data))
    ensures WithPacket(e, a, data).ssrc == e.ssrc && WithPacket(e, a, data).own == e.own
  {
    hide Process, Enqueue;
  }

  // ---------------------------------------------------------------- the object

  class RTPInternalSourceData {
    const ssrc: uint32
    const probationType: ProbationType
    var ownSsrc: bool
    var isCsrc: bool
    var validated: bool
    var isSender: bool
    var processedInRtcp: bool
    var receivedBye: bool
    var byeTime: Time
    var stats: Stats
    var lastNoteTime: Time
    var nonPrivateItems: seq<seq<byte>>
    var rtpAddr: Known
    var rtcpAddr: Known
    var packetList: seq<Packet>

    ghost function View(): Entry
      reads this
    {
      Entry(ssrc, probationType, ownSsrc, isCsrc, validated, isSender, processedInRtcp, receivedBye, byeTime,
            stats, lastNoteTime, nonPrivateItems, rtpAddr, rtcpAddr, packetList)
    }

    /** `RTPSourceData::IsActive`. */
    predicate InUse()
      reads this
      ensures InUse() <==> IsActive(View())
    {
      validated && !receivedBye
    }

    constructor (ssrc: uint32, probation: ProbationType)
      ensures View() == NewEntry(ssrc, probation)
    {
      this.ssrc, probationType := ssrc, probation;
      ownSsrc, isCsrc, validated, isSender, processedInRtcp := false, false, false, false, false;
      receivedBye, byeTime, stats, lastNoteTime := false, 0.0, Initial, 0.0;
      nonPrivateItems := [[], [], [], [], [], [], []];
      rtpAddr, rtcpAddr, packetList := Unset, Unset, [];
    }

    /** Searches from the back for the place of a packet. */
    method InsertPacket(p: Packet) returns (stored: bool)
      requires Increasing(packetList) && packetList != []
      modifies this`packetList
      ensures packetList == Insert(old(packetList), p)
      ensures stored <==> !Holds(old(packetList), p.seqNr)
    {
      ghost var q := packetList;
      stored := false;
      var it, done := |packetList| - 1, false;
      while !done
        invariant 0 <= it < |q|
        invariant !done ==> packetList == q && !stored && forall j | it < j < |q| :: q[j].seqNr > p.seqNr
        invariant done ==> packetList == Insert(q, p) && (stored <==> !Holds(q, p.seqNr))
        decreases if done then 0 else it + 1
      {
        var seqNr := packetList[it].seqNr;
        if seqNr > p.seqNr {
          if it != 0 {
            it := it - 1;
          } else {
            InsertHere(q, p, 0);
            packetList := [p] + packetList;
            stored, done := true, true;
          }
        } else {
          InsertHere(q, p, it + 1);
          if seqNr < p.seqNr {
            packetList := packetList[..it + 1] + [p] + packetList[it + 1..];
            stored, done := true, true;
          } else {
            done := true;
          }
        }
      }
    }

    /** The end of `ProcessRTPPacket`: the packet goes into the queue. */
    method Store(p: Packet) returns (stored: bool)
      requires Increasing(packetList)
      modifies this`packetList
      ensures packetList == Enqueue(old(packetList), p, validated)
      ensures stored <==> !Holds(Trim(old(packetList), validated), p.seqNr)
      ensures |packetList| == |Trim(old(packetList), validated)| + if stored then 1 else 0
      ensures !stored ==> packetList == Trim(old(packetList), validated)
    {
      InsertSound(Trim(packetList, validated), p);
      if packetList == [] {
        packetList := [p];
        return true;
      }
      if !validated {
        if |packetList| == MAXPROBATIONPACKETS {
          packetList := packetList[1..];
        }
      }
      stored := InsertPacket(p);
    }

    method ProcessRTPPacket(a: Arrival, data: seq<byte>) returns (stored: bool)
      requires Increasing(packetList)
      modifies this
      ensures View() == WithPacket(old(View()), a, data)
      ensures stored ==> |packetList| == |Trim(old(packetList), validated)| + 1
      ensures !stored ==> packetList == old(packetList) || packetList == Trim(old(packetList), validated)
    {
      hide Process, Insert, Holds, Trim;
      stored := false;
      var applyProbation := !validated && probationType != NoProbation;
      var r := Process(stats, a.(own := ownSsrc), applyProbation);
      stats := r.stats;
      match probationType {
        case ProbationStore =>
          if !(r.onProbation || r.accept) {
            return;
          }
          if r.accept {
            validated := true;
          }
        case _ =>
          if !r.accept {
            return;
          }
          validated := true;
      }
      if validated && !ownSsrc {
        isSender := true;
      }
      stored := Store(Packet(r.seqNr, data));
    }

    method ProcessSDESItem(id: nat, value: seq<byte>, t: Time) returns (cnameCollision: bool)
      requires 1 <= id <= NUMITEMS == |nonPrivateItems|
      modifies this
      ensures View() == WithItem(old(View()), id, value, t)
      ensures cnameCollision <==> CnameCollides(old(View()), id, value)
    {
      cnameCollision := false;
      stats := stats.(timing := stats.timing.(lastMsgTime := t));
      if id == CNAME {
        if nonPrivateItems[0] == [] {
          nonPrivateItems := nonPrivateItems[0 := value];
          validated := true;
        } else {
          cnameCollision := nonPrivateItems[0] != value;
        }
      } else if id == NAME || id == EMAIL || id == TOOL {
        if nonPrivateItems[id - 1] == [] {
          nonPrivateItems := nonPrivateItems[id - 1 := value];
        }
      } else {
        if id == NOTE {
          lastNoteTime := t;
        }
        nonPrivateItems := nonPrivateItems[id - 1 := value];
      }
    }

    method UpdateMessageTime(t: Time)
      modifies this`stats
      ensures View() == Touched(old(View()), t)
    {
      stats := stats.(timing := stats.timing.(lastMsgTime := t));
    }

    method ProcessBYEPacket(t: Time)
      modifies this`stats, this`byeTime, this`receivedBye
      ensures View() == SaidBye(old(View()), t)
    {
      byeTime := t;
      receivedBye := true;
      stats := stats.(timing := stats.timing.(lastMsgTime := t));
    }

    method SentRTPPacket(now: Time)
      modifies this`stats, this`isSender
      ensures View() == Sent(old(View()), now)
    {
      if !ownSsrc {
        return;
      }
      isSender := true;
      stats := stats.(timing := stats.timing.(lastRtpTime := now, lastMsgTime := now));
    }

    method SetOwnSSRC()
      modifies this`ownSsrc, this`validated
      ensures View() == old(View()).(own := true, validated := true)
    {
      ownSsrc, validated := true, true;
    }

    method SetCSRC()
      modifies this`isCsrc, this`validated
      ensures View() == old(View()).(csrc := true, validated := true)
    {
      validated, isCsrc := true, true;
    }

    method SetProcessedInRTCP(v: bool)
      modifies this`processedInRtcp
      ensures View() == old(View()).(processed := v)
    {
      processedInRtcp := v;
    }

    method StartNewInterval()
      modifies this`stats
      ensures View() == old(View()).(stats := old(stats).(nr := StartInterval(old(stats).nr)))
    {
      stats := stats.(nr := StartInterval(stats.nr));
    }

    method SetRTPDataAddress(from: Sender)
      modifies this`rtpAddr
      ensures View() == Addressed(old(View()), from, true)
    {
      rtpAddr := Set(from);
    }

    method SetRTCPDataAddress(from: Sender)
      modifies this`rtcpAddr
      ensures View() == Addressed(old(View()), from, false)
    {
      rtcpAddr := Set(from);
    }

    method ClearSenderFlag()
      modifies this`isSender
      ensures View() == old(View()).(sender := false)
    {
      isSender := false;
    }

    method ClearNote()
      requires |nonPrivateItems| == NUMITEMS
      modifies this`nonPrivateItems
      ensures View() == NoteCleared(old(View()))
    {
      nonPrivateItems := nonPrivateItems[NOTE - 1 := []];
    }

    /** `RTPSourceData::GetNextPacket`: the lowest number first, and only from a validated source. */
    method GetNextPacket() returns (p: Option<Packet>)
      requires Increasing(packetList)
      modifies this`packetList
      ensures p == None <==> !validated || old(packetList) == []
      ensures p == None ==> packetList == old(packetList)
      ensures p.Some? ==>
        && old(packetList) == [p.value] + packetList
        && forall i | 0 <= i < |packetList| :: p.value.seqNr < packetList[i].seqNr
    {
      if !validated || packetList == [] {
        return None;
      }
      p := Some(packetList[0]);
      packetList := packetList[1..];
    }

    /** `RTPSources::CheckCollision`: stores an address that was not known, refuses a foreign one. */
    method CheckCollision(from: Sender, isRtp: bool) returns (collision: bool)
      modifies this`rtpAddr, this`rtcpAddr
      ensures collision == Collides(if isRtp then old(rtpAddr) else old(rtcpAddr),
                                    if isRtp then old(rtcpAddr) else old(rtpAddr), from)
      ensures View() == if collision then old(View()) else Addressed(old(View()), from, isRtp)
    {
      var addr, otherAddr := rtcpAddr, rtpAddr;
      if isRtp {
        addr, otherAddr := rtpAddr, rtcpAddr;
      }
      if addr == Unset {
        if otherAddr.Set? {
          if otherAddr.from == None {
            if from != None {
              return true;
            }
          } else if !IsFromSameHost(otherAddr.from.value, from) {
            return true;
          }
        }
        if isRtp {
          SetRTPDataAddress(from);
        } else {
          SetRTCPDataAddress(from);
        }
      } else if addr.from == None {
        if from != None {
          return true;
        }
      } else if !IsSameAddress(addr.from.value, from) {
        return true;
      }
      collision := false;
    }
  }

  /** The entry once the address of an accepted packet is known. */
  function Addressed(e: Entry, from: Sender, isRtp: bool): Entry {
    if isRtp then e.(rtp := Set(from)) else e.(rtcp := Set(from))
  }

  /** An outgoing RTP packet; only our own entry records one. */
  function Sent(e: Entry, now: Time): Entry {
    if !e.own then e
    else e.(sender := true, stats := e.stats.(timing := e.stats.timing.(lastRtpTime := now, lastMsgTime := now)))
  }

  // ---------------------------------------------------------------- the packets of a probation

  function Third(seqNr: uint16): uint32 {
    if seqNr == 0 then 0x1_0000 else seqNr
  }

  lemma InsertIntoOne(p: Packet, q: Packet)
    requires p.seqNr != q.seqNr
    ensures Insert([p], q) == if p.seqNr < q.seqNr then [p, q] else [q, p]
    ensures Insert([], p) == [p]
  {
    assert [p][1..] == [];
  }

  lemma InsertIntoTwo(p: Packet, q: Packet, r: Packet)
    requires p.seqNr < q.seqNr < r.seqNr
    ensures Insert([p, q], r) == [p, q, r] && Insert([p, r], q) == [p, q, r]
  {
    InsertHere([p, q], r, 2);
    InsertHere([p, r], q, 1);
  }

  /** One packet of a probation that keeps its packets. */
  lemma ProbationStep(e: Entry, a: Arrival, data: seq<byte>)
    requires e.probation == ProbationStore && !e.validated && !e.stats.nr.sentData && |e.queue| < MAXPROBATIONPACKETS
    ensures
      var left, f := ProbationAfter(e.stats.probation, a.seqNr), WithPacket(e, a, data);
      && f.probation == ProbationStore && f.stats.probation == Probation(a.seqNr, left)
      && f.validated == (left == 0) && f.stats.nr.sentData == (left == 0)
      && f.queue == Insert(e.queue, Packet(if left == 0 then Third(a.seqNr) else a.seqNr, data))
  {
    hide Insert;
  }

  /** Three packets in a row validate a source and leave all three in its queue. They stand in the order
      of their numbers exactly unless the 16-bit numbers wrapped before the third: the first two keep
      bare 16-bit numbers, and only a third packet numbered 0 is put past the wrap. */
  lemma ProbationOrder(e: Entry, a: Arrival, b: Arrival, c: Arrival, x: seq<byte>, y: seq<byte>, z: seq<byte>)
    requires e == NewEntry(e.ssrc, ProbationStore)
    requires b.seqNr == (a.seqNr + 1) % 0x1_0000 && c.seqNr == (b.seqNr + 1) % 0x1_0000
    ensures
      var f := WithPacket(WithPacket(WithPacket(e, a, x), b, y), c, z);
      var p, q, r := Packet(a.seqNr, x), Packet(b.seqNr, y), Packet(Third(c.seqNr), z);
      && f.validated
      && f.queue == (if a.seqNr == 0xFFFF then [q, r, p] else [p, q, r])
      && (f.queue == [p, q, r] <==> a.seqNr != 0xFFFF)
  {
    hide WithPacket, Insert;
    var e1 := WithPacket(e, a, x);
    var e2 := WithPacket(e1, b, y);
    var p, q, r := Packet(a.seqNr, x), Packet(b.seqNr, y), Packet(Third(c.seqNr), z);
    ProbationStep(e, a, x);
    InsertIntoOne(p, q);
    ProbationStep(e1, b, y);
    ProbationStep(e2, c, z);
    if a.seqNr == 0xFFFF {
      InsertIntoTwo(q, r, p);
    } else {
      InsertIntoTwo(p, q, r);
    }
  }
}
