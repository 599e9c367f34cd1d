/** When to send RTCP packets: `RTCPScheduler` of rtcpscheduler.{h,cpp}, section 6.3 of RFC 3550. The
    readings of the clock and the random numbers are arguments. */
module Scheduler {
  import opened CompoundPacket
  import opened RtcpPackets
  import opened Sources
  import opened SourceStats

  const COMPENSATION: real := 1.21828
  const MININTERVAL: real := 1.0

  datatype Params = Params(
    bandwidth: real, senderFraction: real, minInterval: Time, useHalfAtStartup: bool, immediateBye: bool)

  /** The parameters that the setters of `RTCPSchedulerParams` accept. */
  predicate Usable(p: Params) {
    p.bandwidth >= 0.0 && 0.0 <= p.senderFraction <= 1.0 && p.minInterval >= MININTERVAL
  }

  /** What the scheduler reads from the source table. */
  datatype Census = Census(senders: int, active: int, weSend: bool)

  datatype State = State(
    headerOverhead: nat, avgRtcpPackSize: nat, hasSentRtcp: bool, firstCall: bool,
    next: Time, prev: Time, pmembers: int,
    byeScheduled: bool, byeMembers: int, avgByePacketSize: nat, sendByeNow: bool)

  function Max(a: real, b: real): real {
    if a > b then a else b
  }

  /** The new average packet size, rounded down. */
  function Average(avg: nat, size: nat): nat {
    (size + 15 * avg) / 16
  }

  function MinimumTime(p: Params, hasSent: bool): Time {
    if !hasSent && p.useHalfAtStartup then p.minInterval / 2.0 else p.minInterval
  }

  /** How long one packet takes at a bandwidth. Without bandwidth the source divides by zero; every
      method that would do so excludes it. */
  function PacketTime(avg: nat, bandwidth: real): (t: real)
    ensures bandwidth > 0.0 ==> t >= 0.0
  {
    if bandwidth > 0.0 then avg as real / bandwidth else 0.0
  }

  /** How long the packets of `n` members take one after the other. */
  function InTurn(n: int, each: real): real {
    n as real * each
  }

  predicate FewSenders(senders: int, total: int, fraction: real)
    requires total != 0
  {
    senders as real / total as real <= fraction
  }

  lemma ProductPositive(a: real, b: real)
    requires a > 0.0 && b > 0.0
    ensures a * b > 0.0
  {
  }

  function Part(fraction: real, whole: real): real {
    fraction * whole
  }

  function SenderBandwidth(p: Params): real {
    Part(p.senderFraction, p.bandwidth)
  }

  function ReceiverBandwidth(p: Params): real {
    Part(1.0 - p.senderFraction, p.bandwidth)
  }

  /** Section 6.3.1 of RFC 3550: who shares which part of the bandwidth. */
  function Share(p: Params, c: Census, sender: bool): real {
    if FewSenders(c.senders, if c.active == 0 then 1 else c.active, p.senderFraction) then
      if sender then SenderBandwidth(p) else ReceiverBandwidth(p)
    else p.bandwidth
  }

  /** There is bandwidth to divide by. */
  predicate Divides(p: Params, c: Census, sender: bool) {
    Share(p, c, sender) > 0.0
  }

  /** How long a round of those who share it takes. */
  function RoundTime(p: Params, avg: nat, c: Census, sender: bool): real {
    var total := if c.active == 0 then 1 else c.active;
    var n :=
      if !FewSenders(c.senders, total, p.senderFraction) then total
      else if sender then c.senders
      else total - c.senders;
    InTurn(n, PacketTime(avg, Share(p, c, sender)))
  }

  function DeterministicInterval(p: Params, s: State, c: Census, sender: bool): (td: Time)
    ensures td >= MinimumTime(p, s.hasSentRtcp)
  {
    Max(MinimumTime(p, s.hasSentRtcp), RoundTime(p, s.avgRtcpPackSize, c, sender))
  }

  function Randomised(td: Time, random: real): Time {
    td * (random + 0.5) / COMPENSATION
  }

  function TransmissionInterval(p: Params, s: State, c: Census, random: real): Time
  {
    Randomised(DeterministicInterval(p, s, c, c.weSend), random)
  }

  function ByeMinimum(p: Params): Time {
    if p.useHalfAtStartup then p.minInterval / 2.0 else p.minInterval
  }

  function ByeInterval(p: Params, s: State, random: real): Time
  {
    if !s.byeScheduled || s.sendByeNow then 0.0
    else
      Randomised(Max(ByeMinimum(p), InTurn(s.byeMembers, PacketTime(s.avgByePacketSize, ReceiverBandwidth(p)))), random)
  }

  /** A fresh timer from `now`; the clock is read again for the next time. */
  function Armed(p: Params, s: State, c: Census, now: Time, later: Time, random: real): State
  {
    var r := s.(prev := now, pmembers := c.active);
    r.(next := later + TransmissionInterval(p, r, c, random))
  }

  /** The interval the timer is checked against once it has expired. */
  function CheckInterval(p: Params, s: State, c: Census, random: real): Time
  {
    if s.byeScheduled then ByeInterval(p, s, random) else TransmissionInterval(p, s, c, random)
  }

  /** `IsTime` after the first call: whether it is time at `now`. */
  predicate Due(p: Params, s: State, c: Census, now: Time, random: real)
  {
    !s.firstCall && now >= s.next && s.prev + CheckInterval(p, s, c, random) <= now
  }

  /** Timer reconsideration, section 6.3.6. */
  function Checked(p: Params, s: State, c: Census, now: Time, later: Time, random: real, random2: real): State
  {
    if s.firstCall then Armed(p, s.(firstCall := false), c, now, later, random)
    else if now < s.next then s
    else if Due(p, s, c, now, random) then Armed(p, s.(byeScheduled := false), c, now, later, random2)
    else s.(next := s.prev + CheckInterval(p, s, c, random), pmembers := c.active)
  }

  /** Reverse reconsideration, section 6.3.4. */
  function Reversed(s: State, members: int, now: Time): State {
    if s.firstCall then s
    else
      var ratio := members as real / (if s.pmembers == 0 then 1 else s.pmembers) as real;
      s.(next := now + ratio * (if s.next > now then s.next - now else 0.0),
         prev := now - ratio * (if now > s.prev then now - s.prev else 0.0),
         pmembers := members)
  }

  function Decreased(s: State, members: int, now: Time): State {
    if members < s.pmembers then Reversed(s, members, now) else s
  }

  function ByeRequested(p: Params, s: State, c: Census, size: nat, now: Time, random: real): State
  {
    if s.byeScheduled then s
    else
      var r := s.(firstCall := false, pmembers := if s.firstCall then c.active else s.pmembers,
                  byeScheduled := true, avgByePacketSize := size + s.headerOverhead, byeMembers := 1,
                  sendByeNow := p.immediateBye && c.active < 50, prev := now, next := now);
      r.(next := now + ByeInterval(p, r, random))
  }

  predicate HoldsBye(packets: seq<PacketInfo>) {
    exists i :: 0 <= i < |packets| && packets[i].packetType == BYE
  }

  function CameIn(s: State, isBye: bool, size: nat): State {
    if !isBye then s.(avgRtcpPackSize := Average(s.avgRtcpPackSize, s.headerOverhead + size))
    else if s.byeScheduled then
      s.(avgByePacketSize := Average(s.avgByePacketSize, s.headerOverhead + size), byeMembers := s.byeMembers + 1)
    else s
  }

  function WentOut(s: State, isBye: bool, size: nat): State {
    s.(hasSentRtcp := true,
       avgRtcpPackSize := if isBye then s.avgRtcpPackSize else Average(s.avgRtcpPackSize, s.headerOverhead + size))
  }

  // ---------------------------------------------------------------- the object

  class RTCPScheduler {
    const sources: RTPSources
    var schedParams: Params
    var headerOverhead: nat
    var avgRtcpPackSize: nat
    var hasSentRtcp: bool
    var firstCall: bool
    var nextRtcpTime: Time
    var prevRtcpTime: Time
    var pmembers: int
    var byeScheduled: bool
    var byeMembers: int
    var avgByePacketSize: nat
    var sendByeNow: bool

    ghost function View(): State
      reads this
    {
      State(headerOverhead, avgRtcpPackSize, hasSentRtcp, firstCall, nextRtcpTime, prevRtcpTime, pmembers,
            byeScheduled, byeMembers, avgByePacketSize, sendByeNow)
    }

    ghost function Counted(): Census
      reads sources, sources.ownData
    {
      Census(sources.senderCount, sources.activeCount, sources.ownData != null && sources.ownData.isSender)
    }

    constructor (sources: RTPSources, params: Params)
      ensures this.sources == sources && schedParams == params
      ensures firstCall && !hasSentRtcp && !byeScheduled && !sendByeNow && avgRtcpPackSize == 1000
      ensures headerOverhead == 0
      ensures nextRtcpTime == 0.0 && prevRtcpTime == 0.0
    {
      this.sources, schedParams := sources, params;
      nextRtcpTime, prevRtcpTime := 0.0, 0.0;
      headerOverhead, hasSentRtcp, firstCall, avgRtcpPackSize := 0, false, true, 1000;
      byeScheduled, sendByeNow := false, false;
    }

    method CalculateDeterministicInterval(sender: bool) returns (td: Time)
      requires Divides(schedParams, Counted(), sender)
      ensures td == DeterministicInterval(schedParams, View(), Counted(), sender)
    {
      hide FewSenders, SenderBandwidth, ReceiverBandwidth, PacketTime, InTurn, Divides;
      var numSenders, numTotal := sources.senderCount, sources.activeCount;
      if numTotal == 0 {
        numTotal := numTotal + 1;
      }
      var c, n;
      if FewSenders(numSenders, numTotal, schedParams.senderFraction) {
        if sender {
          c := PacketTime(avgRtcpPackSize, SenderBandwidth(schedParams));
          n := numSenders;
        } else {
          c := PacketTime(avgRtcpPackSize, ReceiverBandwidth(schedParams));
          n := numTotal - numSenders;
        }
      } else {
        c := PacketTime(avgRtcpPackSize, schedParams.bandwidth);
        n := numTotal;
      }
      var tmin := schedParams.minInterval;
      if !hasSentRtcp && schedParams.useHalfAtStartup {
        tmin := tmin / 2.0;
      }
      var nTimesC := InTurn(n, c);
      td := if tmin > nTimesC then tmin else nTimesC;
    }

    method CalculateTransmissionInterval(sender: bool, random: real) returns (t: Time)
      requires Divides(schedParams, Counted(), sender)
      ensures t == Randomised(DeterministicInterval(schedParams, View(), Counted(), sender), random)
    {
      var td := CalculateDeterministicInterval(sender);
      t := Randomised(td, random);
    }

    method CalculateBYETransmissionInterval(random: real) returns (t: Time)
      requires byeScheduled && !sendByeNow ==> ReceiverBandwidth(schedParams) > 0.0
      ensures t == ByeInterval(schedParams, View(), random)
    {
      hide PacketTime, InTurn, Randomised, ReceiverBandwidth;
      if !byeScheduled {
        return 0.0;
      }
      if sendByeNow {
        return 0.0;
      }
      var c := PacketTime(avgByePacketSize, ReceiverBandwidth(schedParams));
      var tmin := schedParams.minInterval;
      if schedParams.useHalfAtStartup {
        tmin := tmin / 2.0;
      }
      var nTimesC := InTurn(byeMembers, c);
      var td := if tmin > nTimesC then tmin else nTimesC;
      t := Randomised(td, random);
    }

    method CalculateNextRTCPTime(later: Time, random: real)
      requires Divides(schedParams, Counted(), Counted().weSend)
      modifies this`nextRtcpTime
      ensures View() == old(View()).(next := later + TransmissionInterval(schedParams, old(View()), Counted(), random))
    {
      var areSender := false;
      if sources.ownData != null {
        areSender := sources.ownData.isSender;
      }
      var t := CalculateTransmissionInterval(areSender, random);
      nextRtcpTime := later + t;
    }

    /** The interval `IsTime` checks an expired timer against. */
    method CalculateCheckInterval(random: real) returns (checkTime: Time)
      requires Divides(schedParams, Counted(), Counted().weSend)
      requires byeScheduled && !sendByeNow ==> ReceiverBandwidth(schedParams) > 0.0
      ensures checkTime == CheckInterval(schedParams, View(), Counted(), random)
    {
      hide Divides, ReceiverBandwidth, DeterministicInterval, ByeInterval, Randomised;
      if !byeScheduled {
        var areSender := false;
        if sources.ownData != null {
          areSender := sources.ownData.isSender;
        }
        checkTime := CalculateTransmissionInterval(areSender, random);
      } else {
        checkTime := CalculateBYETransmissionInterval(random);
      }
    }

    method IsTime(now: Time, later: Time, random: real, random2: real) returns (due: bool)
      requires firstCall || now >= nextRtcpTime ==> Divides(schedParams, Counted(), Counted().weSend)
      requires !firstCall && now >= nextRtcpTime && byeScheduled && !sendByeNow ==> ReceiverBandwidth(schedParams) > 0.0
      modifies this`nextRtcpTime, this`prevRtcpTime, this`pmembers, this`firstCall, this`byeScheduled
      ensures View() == Checked(schedParams, old(View()), Counted(), now, later, random, random2)
      ensures due <==> Due(schedParams, old(View()), Counted(), now, random)
    {
      hide DeterministicInterval, ByeInterval, Randomised, Divides, ReceiverBandwidth, CheckInterval,
        TransmissionInterval;
      if firstCall {
        firstCall := false;
        prevRtcpTime := now;
        pmembers := sources.activeCount;
        CalculateNextRTCPTime(later, random);
        return false;
      }
      if now < nextRtcpTime {
        return false;
      }
      var checkTime := CalculateCheckInterval(random);
      checkTime := checkTime + prevRtcpTime;
      if checkTime <= now {
        byeScheduled := false;
        prevRtcpTime := now;
        pmembers := sources.activeCount;
        CalculateNextRTCPTime(later, random2);
        return true;
      }
      nextRtcpTime := checkTime;
      pmembers := sources.activeCount;
      due := false;
    }

    /** The delay until the timer expires, zero if it has. */
    method GetTransmissionDelay(now: Time, later: Time, last: Time, random: real) returns (delay: Time)
      requires firstCall ==> Divides(schedParams, Counted(), Counted().weSend)
      modifies this`nextRtcpTime, this`prevRtcpTime, this`pmembers, this`firstCall
      ensures View() == if old(firstCall)
        then Armed(schedParams, old(View()).(firstCall := false), Counted(), now, later, random) else old(View())
      ensures delay >= 0.0 && nextRtcpTime <= last + delay
      ensures delay == 0.0 || last + delay == nextRtcpTime
    {
      hide DeterministicInterval, Randomised, Divides;
      if firstCall {
        firstCall := false;
        prevRtcpTime := now;
        pmembers := sources.activeCount;
        CalculateNextRTCPTime(later, random);
      }
      if last > nextRtcpTime {
        return 0.0;
      }
      delay := nextRtcpTime - last;
    }

    method PerformReverseReconsideration(now: Time)
      modifies this`nextRtcpTime, this`prevRtcpTime, this`pmembers
      ensures View() == Reversed(old(View()), sources.activeCount, now)
    {
      if firstCall {
        return;
      }
      var members := sources.activeCount;
      var tnMinTc := nextRtcpTime;
      if tnMinTc > now {
        tnMinTc := tnMinTc - now;
      } else {
        tnMinTc := 0.0;
      }
      var tcMinTp := now;
      if tcMinTp > prevRtcpTime {
        tcMinTp := tcMinTp - prevRtcpTime;
      } else {
        tcMinTp := 0.0;
      }
      if pmembers == 0 {
        pmembers := pmembers + 1;
      }
      var diff1 := members as real / pmembers as real * tnMinTc;
      var diff2 := members as real / pmembers as real * tcMinTp;
      nextRtcpTime := now + diff1;
      prevRtcpTime := now - diff2;
      pmembers := members;
    }

    method ActiveMemberDecrease(now: Time)
      modifies this`nextRtcpTime, this`prevRtcpTime, this`pmembers
      ensures View() == Decreased(old(View()), sources.activeCount, now)
    {
      if sources.activeCount < pmembers {
        PerformReverseReconsideration(now);
      }
    }

    method ScheduleBYEPacket(packetSize: nat, now: Time, random: real)
      requires
        byeScheduled || (schedParams.immediateBye && sources.activeCount < 50) || ReceiverBandwidth(schedParams) > 0.0
      modifies this`nextRtcpTime, this`prevRtcpTime, this`pmembers, this`firstCall,
               this`byeScheduled, this`avgByePacketSize, this`byeMembers, this`sendByeNow
      ensures View() == ByeRequested(schedParams, old(View()), Counted(), packetSize, now, random)
    {
      hide ByeInterval, ReceiverBandwidth;
      if byeScheduled {
        return;
      }
      if firstCall {
        firstCall := false;
        pmembers := sources.activeCount;
      }
      byeScheduled := true;
      avgByePacketSize := packetSize + headerOverhead;
      byeMembers := 1;
      sendByeNow := schedParams.immediateBye && sources.activeCount < 50;
      prevRtcpTime := now;
      nextRtcpTime := prevRtcpTime;
      var t := CalculateBYETransmissionInterval(random);
      nextRtcpTime := nextRtcpTime + t;
    }

    /** Looks for a BYE among the packets of a compound packet. */
    method FindBye(packets: seq<PacketInfo>) returns (isBye: bool)
      ensures isBye <==> HoldsBye(packets)
    {
      isBye := false;
      var i := 0;
      while !isBye && i < |packets|
        invariant i <= |packets|
        invariant isBye ==> HoldsBye(packets)
        invariant !isBye ==> forall j | 0 <= j < i :: packets[j].packetType != BYE
        decreases |packets| - i, !isBye
      {
        if packets[i].packetType == BYE {
          isBye := true;
        }
        i := i + 1;
      }
    }

    method AnalyseIncoming(packets: seq<PacketInfo>, size: nat)
      modifies this`avgRtcpPackSize, this`avgByePacketSize, this`byeMembers
      ensures View() == CameIn(old(View()), HoldsBye(packets), size)
    {
      var isBye := FindBye(packets);
      if !isBye {
        avgRtcpPackSize := (headerOverhead + size + 15 * avgRtcpPackSize) / 16;
      } else if byeScheduled {
        avgByePacketSize := (headerOverhead + size + 15 * avgByePacketSize) / 16;
        byeMembers := byeMembers + 1;
      }
    }

    method AnalyseOutgoing(packets: seq<PacketInfo>, size: nat)
      modifies this`avgRtcpPackSize, this`hasSentRtcp
      ensures View() == WentOut(old(View()), HoldsBye(packets), size)
    {
      var isBye := FindBye(packets);
      if !isBye {
        avgRtcpPackSize := (headerOverhead + size + 15 * avgRtcpPackSize) / 16;
      }
      hasSentRtcp := true;
    }
  }
}
