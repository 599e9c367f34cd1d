/** What the timer rules guarantee: over whole runs two packets are never too close, and a session
    that keeps to its intervals stays within its bandwidth. */
module SchedulerRuns {
  import opened SourceStats
  import opened Bytes
  import opened Scheduler
  import SilentMembers
  import SourceData
  import SourceRuns
  import SourceTable

  // ---------------------------------------------------------------- intervals

  lemma ScaledMonotone(a: real, b: real, k: real)
    requires a >= b && k >= 0.0
    ensures a * k >= b * k
  {
  }

  /** The shortest wait there is for a deterministic interval of at least `least`. */
  lemma RandomisedAtLeast(td: Time, least: Time, random: real)
    requires td >= least >= 0.0 && 0.0 <= random
    ensures Randomised(td, random) >= Randomised(least, 0.0) >= 0.0
  {
    ScaledMonotone(td, least, random + 0.5);
    ScaledMonotone(random + 0.5, 0.5, least);
  }

  lemma MinimumPositive(p: Params, hasSent: bool)
    requires Usable(p)
    ensures MinimumTime(p, hasSent) > 0.0 && ByeMinimum(p) > 0.0
  {
  }

  /** The shortest wait before the timer can go off: half the minimum interval, compensated; nothing for
      an immediate BYE. */
  function ShortestWait(p: Params, s: State): Time {
    if s.byeScheduled then (if s.sendByeNow then 0.0 else Randomised(ByeMinimum(p), 0.0))
    else Randomised(MinimumTime(p, s.hasSentRtcp), 0.0)
  }

  lemma CheckIntervalAtLeast(p: Params, s: State, c: Census, random: real)
    requires Usable(p) && 0.0 <= random
    ensures CheckInterval(p, s, c, random) >= ShortestWait(p, s) >= 0.0
  {
    MinimumPositive(p, s.hasSentRtcp);
    hide Randomised, RoundTime, PacketTime, InTurn, ReceiverBandwidth, MinimumTime, ByeMinimum;
    if !s.byeScheduled {
      RandomisedAtLeast(DeterministicInterval(p, s, c, c.weSend), MinimumTime(p, s.hasSentRtcp), random);
    } else if !s.sendByeNow {
      var td := Max(ByeMinimum(p), InTurn(s.byeMembers, PacketTime(s.avgByePacketSize, ReceiverBandwidth(p))));
      RandomisedAtLeast(td, ByeMinimum(p), random);
    }
  }

  // ---------------------------------------------------------------- bandwidth

  /** The bytes per second of `n` members that each send `avg` bytes every `td`. */
  function Rate(n: int, avg: nat, td: Time): real
    requires td > 0.0
  {
    n as real * (avg as real / td)
  }

  lemma QuotientMonotone(a: real, b: real, c: real)
    requires b > 0.0 && c > 0.0 && a <= b * c
    ensures a / b <= c
  {
    ScaledMonotone(b * c, a, 1.0 / b);
    assert a * (1.0 / b) == a / b;
    assert b * c * (1.0 / b) == c;
  }

  /** A round of at least n * (avg / bandwidth) keeps the rate within the bandwidth. */
  lemma RateWithin(n: int, avg: nat, bandwidth: real, td: Time)
    requires bandwidth > 0.0 && td > 0.0 && td >= InTurn(n, PacketTime(avg, bandwidth))
    ensures Rate(n, avg, td) <= bandwidth
  {
    var total := n as real * avg as real;
    assert InTurn(n, PacketTime(avg, bandwidth)) == total / bandwidth;
    assert total <= td * bandwidth by {
      ScaledMonotone(td, total / bandwidth, bandwidth);
      assert total / bandwidth * bandwidth == total;
    }
    QuotientMonotone(total, td, bandwidth);
    assert Rate(n, avg, td) == total / td;
  }

  /** If every sender and every receiver sends its packets at its deterministic interval, the whole
      session stays within the RTCP bandwidth. */
  lemma BandwidthKept(p: Params, s: State, c: Census)
    requires Usable(p) && 0 <= c.senders <= c.active
    requires (c.senders > 0 ==> Divides(p, c, true)) && (c.senders < c.active ==> Divides(p, c, false))
    ensures
      var forSenders, forReceivers := DeterministicInterval(p, s, c, true), DeterministicInterval(p, s, c, false);
      && forSenders > 0.0 && forReceivers > 0.0
      && Rate(c.senders, s.avgRtcpPackSize, forSenders) + Rate(c.active - c.senders, s.avgRtcpPackSize, forReceivers)
         <= p.bandwidth
  {
    MinimumPositive(p, s.hasSentRtcp);
    Shares(p);
    var avg := s.avgRtcpPackSize;
    var forSenders, forReceivers := DeterministicInterval(p, s, c, true), DeterministicInterval(p, s, c, false);
    var total := if c.active == 0 then 1 else c.active;
    if FewSenders(c.senders, total, p.senderFraction) {
      GroupWithin(c.senders, c.senders, avg, SenderBandwidth(p), forSenders);
      GroupWithin(c.active - c.senders, total - c.senders, avg, ReceiverBandwidth(p), forReceivers);
    } else {
      GroupWithin(c.active, total, avg, p.bandwidth, forSenders);
      assert forSenders == forReceivers;
      RateAdds(c.senders, c.active - c.senders, avg, forSenders);
    }
  }

  /** A group of `n` members, or none, that shares a bandwidth. */
  lemma GroupWithin(n: nat, m: int, avg: nat, bandwidth: real, td: Time)
    requires n <= m && bandwidth >= 0.0 && td > 0.0 && (n > 0 ==> bandwidth > 0.0)
    requires td >= InTurn(m, PacketTime(avg, bandwidth))
    ensures Rate(n, avg, td) <= bandwidth
  {
    if n > 0 {
      RateWithin(m, avg, bandwidth, td);
      RateGrows(n, m, avg, td);
    }
  }

  lemma RateGrows(n: int, m: int, avg: nat, td: Time)
    requires n <= m && td > 0.0
    ensures Rate(n, avg, td) <= Rate(m, avg, td)
  {
    assert avg as real / td >= 0.0;
    ScaledMonotone(m as real, n as real, avg as real / td);
  }

  lemma RateAdds(n: int, m: int, avg: nat, td: Time)
    requires td > 0.0
    ensures Rate(n, avg, td) + Rate(m, avg, td) == Rate(n + m, avg, td)
  {
  }

  lemma PartsAdd(a: real, b: real, x: real)
    ensures Part(a, x) + Part(b, x) == Part(a + b, x) && Part(1.0, x) == x
  {
  }

  lemma PartNotNegative(a: real, x: real)
    requires a >= 0.0 && x >= 0.0
    ensures Part(a, x) >= 0.0
  {
    ScaledMonotone(a, 0.0, x);
  }

  lemma Shares(p: Params)
    requires Usable(p)
    ensures SenderBandwidth(p) + ReceiverBandwidth(p) == p.bandwidth
    ensures SenderBandwidth(p) >= 0.0 && ReceiverBandwidth(p) >= 0.0
  {
    hide Part;
    PartsAdd(p.senderFraction, 1.0 - p.senderFraction, p.bandwidth);
    PartNotNegative(p.senderFraction, p.bandwidth);
    PartNotNegative(1.0 - p.senderFraction, p.bandwidth);
  }

  // ---------------------------------------------------------------- reverse reconsideration

  lemma RatioOfSmaller(m: int, n: int)
    requires m < n && n > 0
    ensures m as real / n as real < 1.0
  {
  }

  lemma Ratio(members: int, pmembers: int, n: int)
    requires members < pmembers && n == if pmembers == 0 then 1 else pmembers
    ensures members as real / n as real != 1.0
    ensures members as real / n as real < 1.0 <==> pmembers >= 0
  {
    if pmembers >= 0 {
      RatioOfSmaller(members, n);
    } else {
      RatioOfNegatives(members as real, n as real);
    }
  }

  lemma RatioOfNegatives(m: real, n: real)
    requires m < n < 0.0
    ensures m / n > 1.0
  {
  }

  lemma Shrinks(ratio: real, x: real)
    requires x >= 0.0 && ratio != 1.0
    ensures Part(ratio, x) <= x <==> ratio < 1.0 || x == 0.0
  {
    if ratio > 1.0 && x > 0.0 {
      ProductPositive(ratio - 1.0, x);
      assert ratio * x == x + (ratio - 1.0) * x;
    } else if ratio < 1.0 {
      ScaledMonotone(1.0, ratio, x);
    }
  }

  /** With fewer members the timer is brought closer: neither time moves away from `now`. This is so
      exactly unless the last count was negative. */
  lemma ReverseMovesTowardNow(s: State, members: int, now: Time)
    requires !s.firstCall && members < s.pmembers && s.prev <= now
    ensures Decreased(s, members, now).prev >= s.prev <==> s.pmembers >= 0 || s.prev == now
    ensures Decreased(s, members, now).next <= Max(s.next, now) <==> s.pmembers >= 0 || s.next <= now
  {
    hide Decreased, Part;
    var n := if s.pmembers == 0 then 1 else s.pmembers;
    var ratio := members as real / n as real;
    var back, ahead := now - s.prev, if s.next > now then s.next - now else 0.0;
    Ratio(members, s.pmembers, n);
    Shrinks(ratio, back);
    Shrinks(ratio, ahead);
    ReversedBy(s, members, now, ratio);
  }

  lemma ReversedBy(s: State, members: int, now: Time, ratio: real)
    requires !s.firstCall && members < s.pmembers && s.prev <= now
    requires ratio == members as real / (if s.pmembers == 0 then 1 else s.pmembers) as real
    ensures
      var d := Decreased(s, members, now);
      && d.prev == now - Part(ratio, now - s.prev)
      && d.next == now + Part(ratio, if s.next > now then s.next - now else 0.0)
  {
  }

  // ---------------------------------------------------------------- runs

  datatype Event =
    | MembersFell(members: int, fellAt: Time)
    | TimeChecked(census: Census, at: Time, later: Time, random: real, random2: real)
    | DelayAsked(current: Census, askedAt: Time, armedAt: Time, last: Time, draw: real)
    | PacketCame(byeCame: bool, came: nat)
    | PacketWent(byeWent: bool, went: nat)

  function Step(p: Params, s: State, ev: Event): State {
    match ev
    case MembersFell(members, now) => Decreased(s, members, now)
    case TimeChecked(c, now, later, r, r2) => Checked(p, s, c, now, later, r, r2)
    case DelayAsked(c, now, later, _, r) =>
      if s.firstCall then Armed(p, s.(firstCall := false), c, now, later, r) else s
    case PacketCame(isBye, size) => CameIn(s, isBye, size)
    case PacketWent(isBye, size) => WentOut(s, isBye, size)
  }

  /** The clock never runs back, random numbers lie between 0 and 1, counts are not negative, and there
      is bandwidth to divide by. */
  predicate Proper(p: Params, ev: Event, clock: Time) {
    match ev
    case MembersFell(members, now) => clock <= now && members >= 0
    case TimeChecked(c, now, later, r, r2) =>
      clock <= now <= later && c.active >= 0 && 0.0 <= r <= 1.0 && 0.0 <= r2 <= 1.0 && Divides(p, c, c.weSend)
    case DelayAsked(c, now, later, last, r) =>
      clock <= now <= later <= last && c.active >= 0 && 0.0 <= r <= 1.0 && Divides(p, c, c.weSend)
    case _ => true
  }

  function ClockAfter(ev: Event, clock: Time): Time {
    match ev
    case MembersFell(_, now) => now
    case TimeChecked(_, _, later, _, _) => later
    case DelayAsked(_, _, _, last, _) => last
    case _ => clock
  }

  /** It is time to send at this event. */
  predicate Fires(p: Params, s: State, ev: Event) {
    ev.TimeChecked? && Due(p, s, ev.census, ev.at, ev.random)
  }

  function Run(p: Params, s: State, evs: seq<Event>): State
    decreases |evs|
  {
    if evs == [] then s else Run(p, Step(p, s, evs[0]), evs[1..])
  }

  predicate ProperRun(p: Params, clock: Time, evs: seq<Event>)
    decreases |evs|
  {
    evs == [] || (Proper(p, evs[0], clock) && ProperRun(p, ClockAfter(evs[0], clock), evs[1..]))
  }

  function ClockOf(clock: Time, evs: seq<Event>): Time
    decreases |evs|
  {
    if evs == [] then clock else ClockOf(ClockAfter(evs[0], clock), evs[1..])
  }

  predicate Quiet(p: Params, s: State, evs: seq<Event>)
    decreases |evs|
  {
    evs == [] || (!Fires(p, s, evs[0]) && Quiet(p, Step(p, s, evs[0]), evs[1..]))
  }

  /** The timer counts from `since` or later. */
  predicate Since(s: State, since: Time) {
    !s.firstCall && s.prev >= since && s.pmembers >= 0
  }

  lemma StepSince(p: Params, s: State, ev: Event, clock: Time, since: Time)
    requires Usable(p) && Since(s, since) && clock >= since && Proper(p, ev, clock) && !Fires(p, s, ev)
    ensures Since(Step(p, s, ev), since) && ClockAfter(ev, clock) >= since
    ensures Step(p, s, ev).byeScheduled == s.byeScheduled && Step(p, s, ev).sendByeNow == s.sendByeNow
  {
    hide CheckInterval;
    if ev.MembersFell? && ev.members < s.pmembers && s.prev <= ev.fellAt {
      ReverseMovesTowardNow(s, ev.members, ev.fellAt);
    }
  }

  lemma {:induction false} RunSince(p: Params, s: State, evs: seq<Event>, clock: Time, since: Time)
    requires Usable(p) && Since(s, since) && clock >= since && ProperRun(p, clock, evs) && Quiet(p, s, evs)
    ensures Since(Run(p, s, evs), since) && ClockOf(clock, evs) >= since
    ensures Run(p, s, evs).byeScheduled == s.byeScheduled && Run(p, s, evs).sendByeNow == s.sendByeNow
    decreases |evs|
  {
    if evs == [] {
    } else {
      StepSince(p, s, evs[0], clock, since);
      hide Step, Fires, Proper, ClockAfter, Since;
      RunSince(p, Step(p, s, evs[0]), evs[1..], ClockAfter(evs[0], clock), since);
    }
  }

  /** Two successive times to send are at least half the minimum interval (compensated) apart, whatever
      happens in between: packets, falling member counts, unsuccessful checks. */
  lemma SendsAreApart(p: Params, s: State, first: Event, evs: seq<Event>, second: Event, clock: Time)
    requires Usable(p) && Proper(p, first, clock) && Fires(p, s, first)
    requires ProperRun(p, first.later, evs) && Quiet(p, Step(p, s, first), evs)
    requires Proper(p, second, ClockOf(first.later, evs)) && Fires(p, Run(p, Step(p, s, first), evs), second)
    ensures
      var r := Run(p, Step(p, s, first), evs);
      !r.byeScheduled && second.at - first.at >= Randomised(MinimumTime(p, r.hasSentRtcp), 0.0)
  {
    var t := Step(p, s, first);
    assert Since(t, first.at) && !t.byeScheduled;
    hide Randomised, CheckInterval, MinimumTime, Since, Run;
    RunSince(p, t, evs, first.later, first.at);
    var r := Run(p, t, evs);
    CheckIntervalAtLeast(p, r, second.census, second.random);
    assert r.prev >= first.at by {
      SincePrev(r, first.at);
    }
  }

  lemma SincePrev(s: State, since: Time)
    requires Since(s, since)
    ensures s.prev >= since
  {
  }

  /** A BYE waits its own shortest interval, and not at all if it may go at once: section 6.3.7. */
  lemma ByeWaits(p: Params, s: State, c: Census, size: nat, now: Time, draw: real, evs: seq<Event>, second: Event)
    requires Usable(p) && !s.byeScheduled && (s.firstCall ==> c.active >= 0) && (!s.firstCall ==> s.pmembers >= 0)
    requires (p.immediateBye && c.active < 50) || ReceiverBandwidth(p) > 0.0
    requires ProperRun(p, now, evs) && Quiet(p, ByeRequested(p, s, c, size, now, draw), evs)
    requires second.TimeChecked? && Proper(p, second, ClockOf(now, evs))
    ensures
      var b := ByeRequested(p, s, c, size, now, draw);
      Fires(p, Run(p, b, evs), second) ==>
        second.at - now >= if p.immediateBye && c.active < 50 then 0.0 else Randomised(ByeMinimum(p), 0.0)
    ensures
      p.immediateBye && c.active < 50 && evs == [] ==> Fires(p, ByeRequested(p, s, c, size, now, draw), second)
  {
    var b := ByeRequested(p, s, c, size, now, draw);
    assert Since(b, now) && b.byeScheduled && b.sendByeNow == (p.immediateBye && c.active < 50) by {
      hide ByeInterval;
    }
    hide Randomised, ByeMinimum, Since, ByeRequested, DeterministicInterval;
    RunSince(p, b, evs, now, now);
    var r := Run(p, b, evs);
    CheckIntervalAtLeast(p, r, second.census, second.random);
    SincePrev(r, now);
    if p.immediateBye && c.active < 50 && evs == [] {
      ImmediateByeNext(p, s, c, size, now, draw);
    }
  }

  lemma ImmediateByeNext(p: Params, s: State, c: Census, size: nat, now: Time, draw: real)
    requires Usable(p) && !s.byeScheduled && p.immediateBye && c.active < 50
    ensures
      var b := ByeRequested(p, s, c, size, now, draw);
      !b.firstCall && b.next == now && b.prev == now
  {
  }

  // ---------------------------------------------------------------- negative counts

  /** The scheduler as it is constructed. */
  const START := State(0, 1000, false, true, 0.0, 0.0, 0, false, 0, 0, false)

  /** What the scheduler reads from a table without an entry of our own. */
  function CensusOf(t: SourceTable.Table): Census {
    Census(t.senders, t.active, false)
  }

  lemma FullIntervals(p: Params, s: State)
    requires p == Params(1000.0, 0.25, 5.0, false, true) && s.avgRtcpPackSize == 1000 && !s.byeScheduled
    ensures DeterministicInterval(p, s, Census(0, 0, false), false) == 5.0
    ensures DeterministicInterval(p, s, Census(1, 0, false), false) == 5.0
    ensures DeterministicInterval(p, s, Census(1, -2, false), false) == 5.0
  {
    assert FewSenders(0, 1, 0.25) && !FewSenders(1, 1, 0.25) && FewSenders(1, -2, 0.25);
    assert Share(p, Census(0, 0, false), false) == 750.0 && Share(p, Census(1, -2, false), false) == 750.0;
    assert Share(p, Census(1, 0, false), false) == 1000.0;
  }

  /** Two contributing sources are heard, a mixer names them, and it leaves: the active count is 0. The
      timer goes off; then both sources leave, and the count falls to -1 and to -2. The timer goes off
      again after two seconds, which is less than the shortest wait. */
  lemma NegativeCountsBreakTheWait(p: Params, a: uint32, b: uint32, packet: SourceTable.Incoming, time: Time,
      from: SourceData.Sender)
    requires p == Params(1000.0, 0.25, 5.0, false, true)
    requires a != b && packet.ssrc !in {a, b} && packet.csrcs == [a, b]
    ensures
      var gone := SilentMembers.Leaving([a, b], packet, time, from);
      var byes := SilentMembers.ByeAll([a, b], time, from);
      && SourceRuns.AllReadable(gone) && SourceRuns.AllReadable(gone + byes[..1]) && SourceRuns.AllReadable(gone + byes)
      && var t0 := SourceRuns.Run(SourceData.NoProbation, gone);
      var t1 := SourceRuns.Run(SourceData.NoProbation, gone + byes[..1]);
      var t2 := SourceRuns.Run(SourceData.NoProbation, gone + byes);
      var s := Step(p, START, TimeChecked(Census(0, 0, false), 10.0, 10.0, 0.5, 0.5));
      var first := TimeChecked(CensusOf(t0), 20.0, 20.0, 0.0, 0.230968);
      var falls := [MembersFell(t1.active, 20.1), MembersFell(t2.active, 22.0)];
      var second := TimeChecked(CensusOf(t2), 22.0, 22.0, 0.0, 0.0);
      var r := Run(p, Step(p, s, first), falls);
      && Fires(p, s, first) && Quiet(p, Step(p, s, first), falls) && Fires(p, r, second)
      && second.at - first.at < Randomised(MinimumTime(p, r.hasSentRtcp), 0.0)
  {
    hide Step, Run, Fires, Quiet, Randomised, MinimumTime, SourceRuns.Run, SourceRuns.TableOk, SilentMembers.Leaving,
      SilentMembers.ByeAll, SourceRuns.AllReadable;
    CountsFall(a, b, packet, time, from);
    FallsBreakTheWait(p);
  }

  lemma CountsFall(a: uint32, b: uint32, packet: SourceTable.Incoming, time: Time, from: SourceData.Sender)
    requires a != b && packet.ssrc !in {a, b} && packet.csrcs == [a, b]
    ensures
      var gone := SilentMembers.Leaving([a, b], packet, time, from);
      var byes := SilentMembers.ByeAll([a, b], time, from);
      && SourceRuns.AllReadable(gone) && SourceRuns.AllReadable(gone + byes[..1]) && SourceRuns.AllReadable(gone + byes)
      && CensusOf(SourceRuns.Run(SourceData.NoProbation, gone)) == Census(1, 0, false)
      && SourceRuns.Run(SourceData.NoProbation, gone + byes[..1]).active == -1
      && CensusOf(SourceRuns.Run(SourceData.NoProbation, gone + byes)) == Census(1, -2, false)
  {
    hide SourceRuns.Run, SourceRuns.TableOk, SilentMembers.Leaving, SilentMembers.Members, SourceRuns.SsrcsDistinct;
    var cs := [a, b];
    var gone, byes := SilentMembers.Leaving(cs, packet, time, from), SilentMembers.ByeAll(cs, time, from);
    SilentMembers.ActiveCountBelowZero(cs, packet, 0, time, from);
    SilentMembers.ActiveCountBelowZero(cs, packet, 1, time, from);
    SilentMembers.ActiveCountBelowZero(cs, packet, 2, time, from);
    assert gone + SilentMembers.ByeAll(cs[..0], time, from) == gone;
    assert SilentMembers.ByeAll(cs[..1], time, from) == byes[..1] && cs[..2] == cs;
  }

  lemma FallsBreakTheWait(p: Params)
    requires p == Params(1000.0, 0.25, 5.0, false, true)
    ensures
      var s := Step(p, START, TimeChecked(Census(0, 0, false), 10.0, 10.0, 0.5, 0.5));
      var first := TimeChecked(Census(1, 0, false), 20.0, 20.0, 0.0, 0.230968);
      var falls := [MembersFell(-1, 20.1), MembersFell(-2, 22.0)];
      var second := TimeChecked(Census(1, -2, false), 22.0, 22.0, 0.0, 0.0);
      var r := Run(p, Step(p, s, first), falls);
      && Fires(p, s, first) && Quiet(p, Step(p, s, first), falls) && Fires(p, r, second)
      && second.at - first.at < Randomised(MinimumTime(p, r.hasSentRtcp), 0.0)
  {
    hide DeterministicInterval;
    var s := Step(p, START, TimeChecked(Census(0, 0, false), 10.0, 10.0, 0.5, 0.5));
    FullIntervals(p, START);
    FullIntervals(p, START.(firstCall := false, prev := 10.0, pmembers := 0));
    FullIntervals(p, s);
    FullIntervals(p, s.(byeScheduled := false, prev := 20.0, pmembers := 0));
    var first := TimeChecked(Census(1, 0, false), 20.0, 20.0, 0.0, 0.230968);
    var t := Step(p, s, first);
    assert s.prev == 10.0 && s.next < 20.0;
    assert t.prev == 20.0 && t.next == 23.0 && t.pmembers == 0;
    TwoFalls(t);
    var t1 := Decreased(t, -1, 20.1);
    var t2 := Decreased(t1, -2, 22.0);
    FullIntervals(p, t2);
    var a, b := MembersFell(-1, 20.1), MembersFell(-2, 22.0);
    assert [a, b][1..] == [b] && [b][1..] == [];
    assert Run(p, t1, [b]) == t2;
    assert Run(p, t, [a, b]) == t2;
    assert Quiet(p, t1, [b]);
  }

  lemma TwoFalls(t: State)
    requires t.prev == 20.0 && t.next == 23.0 && t.pmembers == 0 && !t.firstCall
    ensures
      var u := Decreased(Decreased(t, -1, 20.1), -2, 22.0);
      u.prev == 18.4 && u.next == 22.0 && u == t.(prev := u.prev, next := u.next, pmembers := -2)
  {
    var t1 := Decreased(t, -1, 20.1);
    assert t1.prev == 20.2 && t1.next == 17.2 && t1.pmembers == -1;
  }

  // ---------------------------------------------------------------- the average size

  /** The average moves towards the new size and never past it; because it is rounded down it comes to
      rest anywhere up to 15 bytes below. */
  lemma AverageRests(avg: nat, size: nat)
    ensures avg <= size ==> avg <= Average(avg, size) <= size
    ensures size <= avg ==> size <= Average(avg, size) <= avg
    ensures Average(avg, size) == avg <==> 0 <= size - avg < 16
  {
  }
}
