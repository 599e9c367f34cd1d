/** What the RTCP timer holds over whole runs: which member count it was computed for, how far away it
    is, and what reverse reconsideration makes of it. */
module TimerRuns {
  import opened Bytes
  import opened SourceStats
  import opened Scheduler
  import opened SchedulerRuns

  /** Something happens to the timer, or the application asks for a BYE. */
  datatype Act = Happens(event: Event) | ByeAsked(census: Census, size: nat, now: Time, draw: real)

  function Acted(p: Params, s: State, act: Act): State {
    match act
    case Happens(ev) => Step(p, s, ev)
    case ByeAsked(c, size, now, draw) => ByeRequested(p, s, c, size, now, draw)
  }

  function ActedAll(p: Params, s: State, acts: seq<Act>): State {
    if acts == [] then s else Acted(p, ActedAll(p, s, acts[..|acts| - 1]), acts[|acts| - 1])
  }

  // ---------------------------------------------------------------- the member count

  /** The member count the timer was last computed for, told by what happened: the count at the first call
      of any kind, at a check whose timer had expired, whether it was time or not, and at a fall below the
      count there was. `left` is what is held at the start, None before the first call. */
  function LastCount(p: Params, s: State, acts: seq<Act>, left: Option<int>): Option<int> {
    if acts == [] then left
    else
      var before := LastCount(p, s, acts[..|acts| - 1], left);
      match acts[|acts| - 1]
      case Happens(TimeChecked(c, now, _, _, _)) =>
        if before == None || now >= ActedAll(p, s, acts[..|acts| - 1]).next then Some(c.active) else before
      case Happens(DelayAsked(c, _, _, _, _)) => if before == None then Some(c.active) else before
      case Happens(MembersFell(members, _)) =>
        if before.Some? && members < before.value then Some(members) else before
      case Happens(_) => before
      case ByeAsked(c, _, _, _) =>
        if before == None && !ActedAll(p, s, acts[..|acts| - 1]).byeScheduled then Some(c.active) else before
  }

  /** The scheduler holds the count `n`; before the first call it holds none. */
  predicate Holds(s: State, n: Option<int>) {
    if s.firstCall then n == None && !s.byeScheduled else n == Some(s.pmembers)
  }

  lemma ActHolds(p: Params, s: State, act: Act, n: Option<int>)
    requires Holds(s, n)
    ensures
      var m :=
        match act
        case Happens(TimeChecked(c, now, _, _, _)) => if n == None || now >= s.next then Some(c.active) else n
        case Happens(DelayAsked(c, _, _, _, _)) => if n == None then Some(c.active) else n
        case Happens(MembersFell(members, _)) => if n.Some? && members < n.value then Some(members) else n
        case Happens(_) => n
        case ByeAsked(c, _, _, _) => if n == None && !s.byeScheduled then Some(c.active) else n;
      Holds(Acted(p, s, act), m)
  {
    hide CheckInterval, TransmissionInterval, ByeInterval, Average;
  }

  /** In every run the scheduler holds the member count at the last first call, expired check or performed
      reverse reconsideration. */
  lemma {:induction false} CountInEveryRun(p: Params, s: State, acts: seq<Act>, left: Option<int>)
    requires Holds(s, left)
    ensures Holds(ActedAll(p, s, acts), LastCount(p, s, acts, left))
  {
    hide Acted, Holds;
    if acts != [] {
      var init := acts[..|acts| - 1];
      CountInEveryRun(p, s, init, left);
      ActHolds(p, ActedAll(p, s, init), acts[|acts| - 1], LastCount(p, s, init, left));
    }
  }

  // ---------------------------------------------------------------- reverse reconsideration

  lemma Times(x: real, y: real, z: real)
    requires y != 0.0
    ensures x / y * z * y == x * z
  {
  }

  lemma FallScales(s: State, members: int, now: Time, n: int)
    requires !s.firstCall && members < s.pmembers == n
    ensures
      var d := Decreased(s, members, now);
      var k := if n == 0 then 1.0 else n as real;
      && (d.next - now) * k == members as real * Max(s.next - now, 0.0)
      && (now - d.prev) * k == members as real * Max(now - s.prev, 0.0)
  {
    var k := if n == 0 then 1.0 else n as real;
    Times(members as real, k, Max(s.next - now, 0.0));
    Times(members as real, k, Max(now - s.prev, 0.0));
  }

  lemma NotTheSame(m: int, n: int, x: real, y: real)
    requires m < n && x > 0.0 && y * (if n == 0 then 1.0 else n as real) == m as real * x
    ensures y != x
  {
    if n == 0 {
      assert y == m as real * x;
      ProductPositive(1.0 - m as real, x);
    } else {
      ProductPositive(n as real - m as real, x);
    }
  }

  /** A fall in members moves a timer that has not expired exactly if the count is below the one the timer
      was last computed for; and then what is left to wait, and what has been waited, change by exactly the
      ratio of the two counts: section 6.3.4. */
  lemma FallMovesTimer(p: Params, s: State, acts: seq<Act>, left: Option<int>, members: int, now: Time)
    requires Holds(s, left) && LastCount(p, s, acts, left).Some?
    ensures
      var r, n := ActedAll(p, s, acts), LastCount(p, s, acts, left).value;
      var d := Decreased(r, members, now);
      var k := if n == 0 then 1.0 else n as real;
      && (r.next > now ==> (d.next != r.next <==> members < n))
      && (members >= n ==> d == r)
      && (members < n ==>
            && (d.next - now) * k == members as real * Max(r.next - now, 0.0)
            && (now - d.prev) * k == members as real * Max(now - r.prev, 0.0))
  {
    hide ActedAll, LastCount, Decreased, Max;
    CountInEveryRun(p, s, acts, left);
    var r, n := ActedAll(p, s, acts), LastCount(p, s, acts, left).value;
    if members < n {
      FallScales(r, members, now, n);
      if r.next > now {
        MaxIs(r.next - now);
        NotTheSame(members, n, r.next - now, Decreased(r, members, now).next - now);
      }
    } else {
      NoFall(r, members, now);
    }
  }

  lemma MaxIs(x: real)
    ensures Max(x, 0.0) == if x > 0.0 then x else 0.0
  {
  }

  lemma NoFall(s: State, members: int, now: Time)
    requires members >= s.pmembers
    ensures Decreased(s, members, now) == s
  {
  }

  /** A check at 4.0 counts 20 members where there was one, and puts the timer off to about 21.9; when the
      members fall to 10 at 5.0, it comes back to about 13.4. */
  lemma CountAfterPutOff(p: Params)
    requires p == Params(1000.0, 0.25, 5.0, false, true)
    ensures
      var s := Step(p, START, TimeChecked(Census(0, 1, false), 0.0, 0.0, 0.4, 0.0));
      var check := TimeChecked(Census(0, 20, false), 4.0, 4.0, 0.5, 0.0);
      var t := Step(p, s, check);
      var u := Step(p, t, MembersFell(10, 5.0));
      && 3.6 < s.next < 3.7 && !Fires(p, s, check) && 21.8 < t.next < 21.9 && 13.4 < u.next < 13.5
  {
    PutOffIntervals(p);
    hide DeterministicInterval;
  }

  lemma PutOffIntervals(p: Params)
    requires p == Params(1000.0, 0.25, 5.0, false, true)
    ensures forall s: State | s.avgRtcpPackSize == 1000 ::
      && DeterministicInterval(p, s, Census(0, 1, false), false) == 5.0
      && 26.66 < DeterministicInterval(p, s, Census(0, 20, false), false) < 26.67
  {
    assert FewSenders(0, 1, 0.25) && FewSenders(0, 20, 0.25);
    assert Share(p, Census(0, 1, false), false) == 750.0 && Share(p, Census(0, 20, false), false) == 750.0;
  }

  // ---------------------------------------------------------------- where the timer stands

  /** Between one half and one and a half times `td`, divided by e - 3/2: section 6.3.1. */
  predicate Drawn(wait: Time, td: Time) {
    0.5 * td <= 1.21828 * wait <= 1.5 * td
  }

  lemma DrawnBetween(td: Time, random: real)
    requires td >= 0.0 && 0.0 <= random <= 1.0
    ensures Drawn(Randomised(td, random), td)
  {
    hide Randomised, Drawn;
    ScaledWithin(td, random);
    RandomisedIs(td, random, Scaled(td, random));
    DrawnFrom(td, Scaled(td, random), Randomised(td, random));
  }

  function Scaled(td: Time, random: real): real {
    td * (random + 0.5)
  }

  lemma ScaledWithin(td: Time, random: real)
    requires td >= 0.0 && 0.0 <= random <= 1.0
    ensures 0.5 * td <= Scaled(td, random) <= 1.5 * td
  {
    ScaledMonotone(random + 0.5, 0.5, td);
    ScaledMonotone(1.5, random + 0.5, td);
  }

  lemma RandomisedIs(td: Time, random: real, x: real)
    requires x == Scaled(td, random)
    ensures Randomised(td, random) == x / 1.21828
  {
  }

  lemma DrawnFrom(td: Time, x: real, wait: real)
    requires 0.5 * td <= x <= 1.5 * td && wait == x / 1.21828
    ensures Drawn(wait, td)
  {
  }

  /** A check that sets the timer sets it to a random wait around the deterministic interval for the
      members there are: from now on at the first call and when it was time, from the last time to send
      when it was not. */
  lemma CheckSetsTimer(p: Params, s: State, c: Census, now: Time, later: Time, random: real, random2: real)
    requires Usable(p) && 0.0 <= random <= 1.0 && 0.0 <= random2 <= 1.0 && !s.byeScheduled
    ensures
      var td := DeterministicInterval(p, s, c, c.weSend);
      var t := Checked(p, s, c, now, later, random, random2);
      && (s.firstCall || Due(p, s, c, now, random) ==> t.prev == now && Drawn(t.next - later, td))
      && (!s.firstCall && now >= s.next && !Due(p, s, c, now, random) ==>
            t.prev == s.prev && Drawn(t.next - s.prev, td) && t.next > now)
      && (!s.firstCall && now < s.next ==> t == s)
  {
    hide RoundTime, MinimumTime, Randomised, Drawn;
    MinimumPositive(p, s.hasSentRtcp);
    DrawnBetween(DeterministicInterval(p, s, c, c.weSend), random);
    DrawnBetween(DeterministicInterval(p, s, c, c.weSend), random2);
  }

  // ---------------------------------------------------------------- how long the interval is

  lemma Fewer(n: int, m: int, fraction: real)
    requires m > 0
    ensures FewSenders(n, m, fraction) <==> n as real <= fraction * m as real
  {
    var q := n as real / m as real;
    assert q * m as real == n as real;
    if q <= fraction {
      ScaledMonotone(fraction, q, m as real);
    } else {
      ProductPositive(q - fraction, m as real);
    }
  }

  lemma RoundRate(n: int, avg: nat, bandwidth: real, td: Time)
    requires bandwidth > 0.0 && td > 0.0 && td == InTurn(n, PacketTime(avg, bandwidth))
    ensures Rate(n, avg, td) == bandwidth
  {
    var total := n as real * avg as real;
    assert td == total / bandwidth;
    assert td * bandwidth == total;
    assert Rate(n, avg, td) == total / td;
    assert total / td == bandwidth;
  }

  /** The deterministic interval is the minimum, half of it before our first packet if so wanted; or it is
      longer, and then those who share a bandwidth use exactly this: the senders their fraction and the
      receivers the rest if the senders are few enough, everybody all of it if not. */
  lemma IntervalExactly(p: Params, s: State, c: Census, sender: bool)
    requires Usable(p) && Divides(p, c, sender) && c.active >= 0
    ensures
      var least := if !s.hasSentRtcp && p.useHalfAtStartup then p.minInterval / 2.0 else p.minInterval;
      var n := if c.active == 0 then 1 else c.active;
      var td := DeterministicInterval(p, s, c, sender);
      && td >= least > 0.0
      && (td > least ==>
            if c.senders as real <= p.senderFraction * n as real then
              if sender then Rate(c.senders, s.avgRtcpPackSize, td) == p.senderFraction * p.bandwidth
              else Rate(n - c.senders, s.avgRtcpPackSize, td) == (1.0 - p.senderFraction) * p.bandwidth
            else Rate(n, s.avgRtcpPackSize, td) == p.bandwidth)
  {
    hide PacketTime, InTurn, Rate, FewSenders;
    var n := if c.active == 0 then 1 else c.active;
    Fewer(c.senders, n, p.senderFraction);
    var m := if !FewSenders(c.senders, n, p.senderFraction) then n else if sender then c.senders else n - c.senders;
    var td := DeterministicInterval(p, s, c, sender);
    if td > MinimumTime(p, s.hasSentRtcp) {
      MinimumPositive(p, s.hasSentRtcp);
      RoundRate(m, s.avgRtcpPackSize, Share(p, c, sender), td);
    }
  }

  // ---------------------------------------------------------------- packet sizes

  /** The old average counts fifteen times and the size with its lower headers once, rounded down. */
  predicate Moves(avg: nat, size: nat, next: nat) {
    16 * next <= 15 * avg + size < 16 * next + 16
  }

  /** Every packet that comes or goes and holds no BYE moves the average size; a BYE that comes while ours
      waits moves that of BYEs, which starts with ours. Nothing else does. */
  lemma AveragesMove(p: Params, s: State, act: Act)
    ensures
      var t := Acted(p, s, act);
      && t.headerOverhead == s.headerOverhead
      && match act
         case Happens(PacketCame(isBye, size)) =>
           && (if isBye then t.avgRtcpPackSize == s.avgRtcpPackSize
               else Moves(s.avgRtcpPackSize, size + s.headerOverhead, t.avgRtcpPackSize))
           && (if isBye && s.byeScheduled then Moves(s.avgByePacketSize, size + s.headerOverhead, t.avgByePacketSize)
               else t.avgByePacketSize == s.avgByePacketSize)
         case Happens(PacketWent(isBye, size)) =>
           && t.avgByePacketSize == s.avgByePacketSize
           && (if isBye then t.avgRtcpPackSize == s.avgRtcpPackSize
               else Moves(s.avgRtcpPackSize, size + s.headerOverhead, t.avgRtcpPackSize))
         case ByeAsked(_, size, _, _) =>
           && t.avgRtcpPackSize == s.avgRtcpPackSize
           && t.avgByePacketSize == if s.byeScheduled then s.avgByePacketSize else size + s.headerOverhead
         case _ => t.avgRtcpPackSize == s.avgRtcpPackSize && t.avgByePacketSize == s.avgByePacketSize
  {
    hide CheckInterval, TransmissionInterval, ByeInterval, Reversed;
    match act {
      case Happens(MembersFell(members, now)) => ReversedKeepsSizes(s, members, now);
      case _ =>
    }
  }

  lemma ReversedKeepsSizes(s: State, members: int, now: Time)
    ensures
      var r := Reversed(s, members, now);
      r.avgRtcpPackSize == s.avgRtcpPackSize && r.avgByePacketSize == s.avgByePacketSize
      && r.headerOverhead == s.headerOverhead
  {
  }

  // ---------------------------------------------------------------- what was sent and heard

  function CountByes(acts: seq<Act>): nat {
    if acts == [] then 0
    else
      var last := acts[|acts| - 1];
      CountByes(acts[..|acts| - 1]) + if last.Happens? && last.event.PacketCame? && last.event.byeCame then 1 else 0
  }

  ghost predicate NoTimeToSend(p: Params, s: State, acts: seq<Act>) {
    forall i | 0 <= i < |acts| ::
      acts[i].Happens? && !Fires(p, ActedAll(p, s, acts[..i]), acts[i].event)
  }

  /** While a BYE of ours waits, its members are we and those whose BYE has come since. */
  lemma {:induction false} ByesAreCounted(p: Params, s: State, acts: seq<Act>)
    requires s.byeScheduled && !s.firstCall && NoTimeToSend(p, s, acts)
    ensures
      var r := ActedAll(p, s, acts);
      && r.byeScheduled && !r.firstCall && r.byeMembers == s.byeMembers + CountByes(acts)
      && r.sendByeNow == s.sendByeNow
  {
    hide Acted, Fires;
    if acts != [] {
      var init := acts[..|acts| - 1];
      forall i | 0 <= i < |init|
        ensures init[..i] == acts[..i] && init[i] == acts[i]
      {
      }
      ByesAreCounted(p, s, init);
      assert acts[|acts| - 1].Happens?;
      ByeOfAct(p, ActedAll(p, s, init), acts[|acts| - 1].event);
    }
  }

  lemma ByeOfAct(p: Params, s: State, ev: Event)
    requires s.byeScheduled && !s.firstCall && !Fires(p, s, ev)
    ensures
      var r := Acted(p, s, Happens(ev));
      && r.byeScheduled && !r.firstCall && r.sendByeNow == s.sendByeNow
      && r.byeMembers == s.byeMembers + if ev.PacketCame? && ev.byeCame then 1 else 0
  {
    hide CheckInterval, TransmissionInterval, Average, Reversed;
    if ev.MembersFell? {
      ReversedKeepsBye(s, ev.members, ev.fellAt);
    }
  }

  lemma ReversedKeepsBye(s: State, members: int, now: Time)
    ensures
      var r := Reversed(s, members, now);
      r.byeScheduled == s.byeScheduled && r.firstCall == s.firstCall && r.sendByeNow == s.sendByeNow
      && r.byeMembers == s.byeMembers
  {
  }

  /** How long the BYEs of `n` members take one after the other at the bandwidth of the receivers. */
  function ByesTake(p: Params, n: nat, avg: nat): real
    requires (1.0 - p.senderFraction) * p.bandwidth > 0.0
  {
    n as real * (avg as real / ((1.0 - p.senderFraction) * p.bandwidth))
  }

  lemma ByeIntervalIs(p: Params, s: State, c: Census, random: real, n: nat)
    requires Usable(p) && s.byeScheduled && s.byeMembers == n && 0.0 <= random <= 1.0
    requires (1.0 - p.senderFraction) * p.bandwidth > 0.0
    ensures s.sendByeNow ==> CheckInterval(p, s, c, random) == 0.0
    ensures
      var least := if p.useHalfAtStartup then p.minInterval / 2.0 else p.minInterval;
      var needed := ByesTake(p, n, s.avgByePacketSize);
      !s.sendByeNow ==> Drawn(CheckInterval(p, s, c, random), if needed > least then needed else least)
  {
    hide Randomised, Drawn, ByesTake, InTurn, PacketTime, ReceiverBandwidth;
    MinimumPositive(p, false);
    ByesTakeIs(p, n, s.avgByePacketSize);
    var td := Max(ByeMinimum(p), InTurn(n, PacketTime(s.avgByePacketSize, ReceiverBandwidth(p))));
    DrawnBetween(td, random);
  }

  lemma ByesTakeIs(p: Params, n: nat, avg: nat)
    requires (1.0 - p.senderFraction) * p.bandwidth > 0.0
    ensures InTurn(n, PacketTime(avg, ReceiverBandwidth(p))) == ByesTake(p, n, avg)
  {
    var share := (1.0 - p.senderFraction) * p.bandwidth;
    assert ReceiverBandwidth(p) == share;
    assert PacketTime(avg, share) == avg as real / share;
  }

  /** From the request on: a BYE waits around the minimum, or longer if sending the BYEs of all its members
      one after the other takes longer; nothing if it may go at once. */
  lemma ByeWaitsForAll(p: Params, s: State, c: Census, size: nat, now: Time, draw: real, acts: seq<Act>, random: real)
    requires Usable(p) && !s.byeScheduled && (1.0 - p.senderFraction) * p.bandwidth > 0.0 && 0.0 <= random <= 1.0
    requires NoTimeToSend(p, ByeRequested(p, s, c, size, now, draw), acts)
    ensures
      var r := ActedAll(p, ByeRequested(p, s, c, size, now, draw), acts);
      var least := if p.useHalfAtStartup then p.minInterval / 2.0 else p.minInterval;
      var needed := ByesTake(p, 1 + CountByes(acts), r.avgByePacketSize);
      && r.byeScheduled
      && if p.immediateBye && c.active < 50 then CheckInterval(p, r, c, random) == 0.0
         else Drawn(CheckInterval(p, r, c, random), if needed > least then needed else least)
  {
    hide ActedAll, CountByes, NoTimeToSend, CheckInterval, Drawn, ByesTake, ByeInterval;
    var b := ByeRequested(p, s, c, size, now, draw);
    ByesAreCounted(p, b, acts);
    ByeIntervalIs(p, ActedAll(p, b, acts), c, random, 1 + CountByes(acts));
  }

  /** An RTCP packet of ours has been sent exactly if one went out. */
  lemma {:induction false} SentExactly(p: Params, s: State, acts: seq<Act>)
    ensures
      ActedAll(p, s, acts).hasSentRtcp ==
      (s.hasSentRtcp || exists i :: 0 <= i < |acts| && acts[i].Happens? && acts[i].event.PacketWent?)
  {
    if acts != [] {
      var init := acts[..|acts| - 1];
      SentExactly(p, s, init);
      SentByAct(p, ActedAll(p, s, init), acts[|acts| - 1]);
      hide Acted, ActedAll;
      forall i | 0 <= i < |init|
        ensures init[i] == acts[i]
      {
      }
    }
  }

  lemma SentByAct(p: Params, s: State, act: Act)
    ensures Acted(p, s, act).hasSentRtcp <==> s.hasSentRtcp || (act.Happens? && act.event.PacketWent?)
  {
    hide CheckInterval, TransmissionInterval, ByeInterval, Average;
  }
}
