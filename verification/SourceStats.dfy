/** Receive statistics of one source: `RTPSourceStats` of rtpsourcedata.{h,cpp}. */
module SourceStats {
  import opened Bytes

  const PROBATIONCOUNT: nat := 2
  type Time = real

  /** Sequence numbers and packet counts. `numCycles` is already shifted left by 16 bits. */
  datatype Numbering = Numbering(
    sentData: bool, packetsReceived: uint32,
    numCycles: uint32, baseSeqNr: uint32, extHighSeqNr: uint32,
    numNewPackets: uint32, savedExtSeqNr: uint32)

  datatype Probation = Probation(prevSeqNr: uint16, left: nat)

  datatype Timing = Timing(prevTimestamp: uint32, dJitter: real, prevPackTime: Time,
                           lastMsgTime: Time, lastRtpTime: Time)

  /** The fields of `RTPSourceStats`, grouped. */
  datatype Stats = Stats(nr: Numbering, probation: Probation, timing: Timing)

  const Initial := Stats(Numbering(false, 0, 0, 0, 0, 0, 0), Probation(0, 0), Timing(0, 0.0, 0.0, 0.0, 0.0))

  /** What one packet brings: its 16-bit number, its timestamp, when it came, the timestamp unit to
      use for jitter, and whether it is one of our own packets. */
  datatype Arrival = Arrival(seqNr: uint16, timestamp: uint32, time: Time, tsUnit: real, own: bool)

  /** `seqNr` is the number the packet carries afterwards. */
  datatype Processed = Processed(stats: Stats, accept: bool, onProbation: bool, seqNr: uint32)

  function Add32(a: int, b: int): uint32 {
    (a + b) % 0x1_0000_0000
  }

  function Sub32(a: int, b: int): uint32 {
    (a - b) % 0x1_0000_0000
  }

  lemma AddAdd(a: int, b: int, c: int)
    ensures Add32(Add32(a, b), c) == Add32(a, b + c)
  {
  }

  lemma SubOfRemainders(a: int, b: int)
    ensures Sub32(a % 0x1_0000_0000, b % 0x1_0000_0000) == Sub32(a, b)
  {
  }

  function Sub16(a: int, b: int): uint16 {
    (a - b) % 0x1_0000
  }

  // ---------------------------------------------------------------- what one packet does

  /** The macro ACCEPTPACKETCODE. */
  function AcceptFirst(n: Numbering, seqNr: uint16): Numbering {
    var base: uint32 := if seqNr == 0 then 0xFFFF else seqNr - 1;
    Numbering(true, Add32(n.packetsReceived, 1), if seqNr == 0 then 0x1_0000 else n.numCycles,
              base, base + 1, Add32(n.numNewPackets, 1), base)
  }

  /** Probation: the counter after the packet, and 0 means the packet is accepted. */
  function ProbationAfter(p: Probation, seqNr: uint16): nat {
    if p.left > 0 && (p.prevSeqNr + 1) % 0x1_0000 == seqNr then p.left - 1 else PROBATIONCOUNT
  }

  predicate Advances(high: uint32, seqNr: uint16) {
    var max16 := high % 0x1_0000;
    seqNr >= max16 || Sub16(seqNr, max16) < Sub16(max16, seqNr)
  }

  /** The cycle count used for a packet, by comparing 16-bit distances to the highest number. */
  function CyclesFor(n: Numbering, seqNr: uint16): uint32 {
    if seqNr < n.extHighSeqNr % 0x1_0000 && Advances(n.extHighSeqNr, seqNr) then Add32(n.numCycles, 0x1_0000)
    else n.numCycles
  }

  /** The number given to a packet of a source that has already sent data. */
  function Extend(n: Numbering, seqNr: uint16): uint32 {
    Add32(CyclesFor(n, seqNr), seqNr)
  }

  function CountLater(n: Numbering, seqNr: uint16): Numbering {
    n.(packetsReceived := Add32(n.packetsReceived, 1), numNewPackets := Add32(n.numNewPackets, 1),
       numCycles := CyclesFor(n, seqNr),
       extHighSeqNr := if Advances(n.extHighSeqNr, seqNr) then Extend(n, seqNr) else n.extHighSeqNr)
  }

  /** The signed distance between two timestamps as the jitter code computes it. */
  function TimestampDiff(cur: uint32, prev: uint32): int {
    if cur > prev then
      var u := cur - prev;
      if u < 0x1000_0000 then u else 0 - Sub32(0, u)
    else if cur < prev then
      var u := prev - cur;
      if u < 0x1000_0000 then 0 - u else Sub32(0, u)
    else 0
  }

  /** Appendix A.8 of RFC 3550: J += (|D| - J) / 16, or 0 when no timestamp unit is known. */
  function NextJitter(j: real, transit: real, tsDiff: int): real {
    var d := transit - tsDiff as real;
    j + ((if d < 0.0 then -d else d) - j) / 16.0
  }

  function JitterAfter(t: Timing, a: Arrival): real {
    if a.tsUnit > 0.0 then
      NextJitter(t.dJitter, (a.time - t.prevPackTime) / a.tsUnit, TimestampDiff(a.timestamp, t.prevTimestamp))
    else 0.0
  }

  function Received(t: Timing, a: Arrival, dJitter: real): Timing {
    Timing(a.timestamp, dJitter, a.time, a.time, if a.own then t.lastRtpTime else a.time)
  }

  function Process(s: Stats, a: Arrival, applyProbation: bool): Processed {
    if s.nr.sentData then
      Processed(Stats(CountLater(s.nr, a.seqNr), s.probation, Received(s.timing, a, JitterAfter(s.timing, a))),
                true, false, Extend(s.nr, a.seqNr))
    else
      var left := ProbationAfter(s.probation, a.seqNr);
      var p := if applyProbation then Probation(a.seqNr, left) else s.probation;
      if applyProbation && left > 0 then
        Processed(Stats(s.nr, p, s.timing.(lastMsgTime := a.time)), false, true, a.seqNr)
      else
        var n := AcceptFirst(s.nr, a.seqNr);
        Processed(Stats(n, p, Received(s.timing, a, s.timing.dJitter)), true, false, n.extHighSeqNr)
  }

  function StartInterval(n: Numbering): Numbering {
    n.(numNewPackets := 0, savedExtSeqNr := n.extHighSeqNr)
  }

  // ---------------------------------------------------------------- the object

  class RTPSourceStats {
    var sentData: bool
    var packetsReceived: uint32
    var numCycles: uint32
    var baseSeqNr: uint32
    var extHighSeqNr: uint32
    var numNewPackets: uint32
    var savedExtSeqNr: uint32
    var prevSeqNr: uint16
    var probation: nat
    var prevTimestamp: uint32
    var dJitter: real
    var jitter: int
    var prevPackTime: Time
    var lastMsgTime: Time
    var lastRtpTime: Time

    ghost function Nr(): Numbering
      reads this
    {
      Numbering(sentData, packetsReceived, numCycles, baseSeqNr, extHighSeqNr, numNewPackets, savedExtSeqNr)
    }

    ghost function Prob(): Probation
      reads this
    {
      Probation(prevSeqNr, probation)
    }

    ghost function Tim(): Timing
      reads this
    {
      Timing(prevTimestamp, dJitter, prevPackTime, lastMsgTime, lastRtpTime)
    }

    ghost function View(): Stats
      reads this
    {
      Stats(Nr(), Prob(), Tim())
    }

    constructor ()
      ensures View() == Initial
    {
      sentData, packetsReceived, numCycles, baseSeqNr, extHighSeqNr := false, 0, 0, 0, 0;
      numNewPackets, savedExtSeqNr, prevSeqNr, probation := 0, 0, 0, 0;
      prevTimestamp, dJitter, jitter := 0, 0.0, 0;
      prevPackTime, lastMsgTime, lastRtpTime := 0.0, 0.0, 0.0;
    }

    method StartNewInterval()
      modifies this
      ensures View() == old(View()).(nr := StartInterval(old(Nr())))
    {
      numNewPackets := 0;
      savedExtSeqNr := extHighSeqNr;
    }

    /** The times and the timestamp every accepted packet leaves behind. */
    method NoteReceived(a: Arrival)
      modifies this`prevPackTime, this`prevTimestamp, this`lastMsgTime, this`lastRtpTime
      ensures Tim() == Received(old(Tim()), a, dJitter)
    {
      prevPackTime := a.time;
      prevTimestamp := a.timestamp;
      lastMsgTime := prevPackTime;
      if !a.own {
        lastRtpTime := prevPackTime;
      }
    }

    method AcceptPacket(packSeqNr: uint16) returns (seqNr: uint32)
      modifies this`sentData, this`packetsReceived, this`numNewPackets, this`numCycles, this`baseSeqNr,
               this`extHighSeqNr, this`savedExtSeqNr
      ensures Nr() == AcceptFirst(old(Nr()), packSeqNr) && seqNr == extHighSeqNr
    {
      sentData := true;
      packetsReceived := Add32(packetsReceived, 1);
      numNewPackets := Add32(numNewPackets, 1);
      if packSeqNr == 0 {
        baseSeqNr := 0xFFFF;
        numCycles := 0x1_0000;
      } else {
        baseSeqNr := packSeqNr - 1;
      }
      extHighSeqNr := Add32(baseSeqNr, 1);
      savedExtSeqNr := baseSeqNr;
      seqNr := extHighSeqNr;
    }

    method TimestampDistance(timestamp: uint32) returns (diffts2: real)
      ensures diffts2 == TimestampDiff(timestamp, prevTimestamp) as real
    {
      diffts2 := 0.0;
      if timestamp > prevTimestamp {
        var unsigneddiff := timestamp - prevTimestamp;
        diffts2 := if unsigneddiff < 0x1000_0000 then unsigneddiff as real else -(Sub32(0, unsigneddiff) as real);
      } else if timestamp < prevTimestamp {
        var unsigneddiff := prevTimestamp - timestamp;
        diffts2 := if unsigneddiff < 0x1000_0000 then -(unsigneddiff as real) else Sub32(0, unsigneddiff) as real;
      }
    }

    method UpdateJitter(a: Arrival)
      modifies this`dJitter, this`jitter
      ensures dJitter == JitterAfter(old(Tim()), a) && jitter == dJitter.Floor
    {
      if a.tsUnit > 0.0 {
        var diffts1 := (a.time - prevPackTime) / a.tsUnit;
        var diffts2 := TimestampDistance(a.timestamp);
        var diff := diffts1 - diffts2;
        if diff < 0.0 {
          diff := -diff;
        }
        dJitter := dJitter + (diff - dJitter) / 16.0;
        jitter := dJitter.Floor;
      } else {
        dJitter, jitter := 0.0, 0;
      }
    }

    /** The numbering half of `ProcessPacket` once the source has sent data. */
    method CountPacket(packSeqNr: uint16) returns (seqNr: uint32)
      requires sentData
      modifies this`packetsReceived, this`numNewPackets, this`numCycles, this`extHighSeqNr
      ensures Nr() == CountLater(old(Nr()), packSeqNr) && seqNr == Extend(old(Nr()), packSeqNr)
    {
      packetsReceived := Add32(packetsReceived, 1);
      numNewPackets := Add32(numNewPackets, 1);
      var maxseq16 := extHighSeqNr % 0x1_0000;
      if packSeqNr >= maxseq16 {
        seqNr := Add32(numCycles, packSeqNr);
        extHighSeqNr := seqNr;
      } else {
        var dif1 := Sub16(packSeqNr, maxseq16);
        var dif2 := Sub16(maxseq16, packSeqNr);
        if dif1 < dif2 {
          numCycles := Add32(numCycles, 0x1_0000);
          seqNr := Add32(numCycles, packSeqNr);
          extHighSeqNr := seqNr;
        } else {
          seqNr := Add32(numCycles, packSeqNr);
        }
      }
    }

    method ProcessPacket(a: Arrival, applyProbation: bool) returns (accept: bool, onProbation: bool, seqNr: uint32)
      modifies this
      ensures Processed(View(), accept, onProbation, seqNr) == Process(old(View()), a, applyProbation)
    {
      onProbation, seqNr := false, a.seqNr;
      if !sentData {
        if applyProbation {
          var acceptPack := false;
          if probation > 0 {
            if (prevSeqNr + 1) % 0x1_0000 == a.seqNr {
              prevSeqNr := a.seqNr;
              probation := probation - 1;
              if probation == 0 {
                acceptPack := true;
              } else {
                onProbation := true;
              }
            } else {
              probation := PROBATIONCOUNT;
              prevSeqNr := a.seqNr;
              onProbation := true;
            }
          } else {
            probation := PROBATIONCOUNT;
            prevSeqNr := a.seqNr;
            onProbation := true;
          }
          accept := acceptPack;
          if acceptPack {
            seqNr := AcceptPacket(a.seqNr);
            NoteReceived(a);
          } else {
            lastMsgTime := a.time;
          }
        } else {
          accept := true;
          seqNr := AcceptPacket(a.seqNr);
          NoteReceived(a);
        }
      } else {
        accept := true;
        seqNr := CountPacket(a.seqNr);
        UpdateJitter(a);
        NoteReceived(a);
      }
    }
  }
}
