/** The interarrival jitter over whole runs: section 6.4.1 and appendix A.8 of RFC 3550. */
module JitterRuns {
  import opened Bytes
  import opened SourceStats
  import ReceiveRuns

  /** A packet that comes in, with its true timestamp, of which it carries the low 32 bits. */
  datatype Sample = Sample(arrival: Arrival, stamp: int)

  predicate Stamped(x: Sample) {
    x.arrival.timestamp == x.stamp % 0x1_0000_0000
  }

  /** How long a packet was on its way, in timestamp units, up to a constant of the run. */
  function Transit(x: Sample, tsUnit: real): real
    requires tsUnit > 0.0
  {
    x.arrival.time / tsUnit - x.stamp as real
  }

  /** By how much `y` was longer on its way than `x`. */
  function Late(x: Sample, y: Sample): real
    requires y.arrival.tsUnit > 0.0
  {
    Transit(y, y.arrival.tsUnit) - Transit(x, y.arrival.tsUnit)
  }

  function Abs(x: real): real {
    if x < 0.0 then -x else x
  }

  function Max(a: real, b: real): real {
    if a > b then a else b
  }

  /** |D|; without a timestamp unit there is none. */
  function Distance(x: Sample, y: Sample): real {
    if y.arrival.tsUnit > 0.0 then Abs(Late(x, y)) else 0.0
  }

  /** The distance of the timestamps is found: `ReceiveRuns.TimestampDiffExact`. */
  predicate Found(x: Sample, y: Sample) {
    var d := y.stamp - x.stamp;
    && -0x8000_0000 <= d < 0x8000_0000
    && (-0x1000_0000 < d < 0x1000_0000 || x.stamp / 0x1_0000_0000 != y.stamp / 0x1_0000_0000)
  }

  /** `x` is the last packet that was accepted. */
  predicate Follows(s: Stats, x: Sample) {
    && s.nr.sentData && Stamped(x)
    && s.timing.prevTimestamp == x.arrival.timestamp && s.timing.prevPackTime == x.arrival.time
  }

  // ---------------------------------------------------------------- one packet

  lemma StampDiff(x: Sample, y: Sample)
    requires Stamped(x) && Stamped(y) && Found(x, y)
    ensures TimestampDiff(y.arrival.timestamp, x.arrival.timestamp) == y.stamp - x.stamp
  {
    hide TimestampDiff;
    var prev, d := x.arrival.timestamp, y.stamp - x.stamp;
    SameCycle(x.stamp, d);
    ReceiveRuns.TimestampDiffExact(prev, d);
  }

  lemma SameCycle(a: int, d: int)
    requires -0x8000_0000 <= d < 0x8000_0000
    ensures (a % 0x1_0000_0000 + d) % 0x1_0000_0000 == (a + d) % 0x1_0000_0000
    ensures 0 <= a % 0x1_0000_0000 + d < 0x1_0000_0000 <==> a / 0x1_0000_0000 == (a + d) / 0x1_0000_0000
  {
  }

  lemma QuotientDiff(a: real, b: real, c: real)
    requires c > 0.0
    ensures (a - b) / c == a / c - b / c
  {
  }

  /** One accepted packet keeps 15/16 of the distance between the jitter and |D|, where D is how much
      longer it was on its way than the packet before. */
  lemma JitterStep(s: Stats, x: Sample, y: Sample, probation: bool)
    requires Follows(s, x) && Stamped(y) && Found(x, y)
    ensures
      var t := Process(s, y.arrival, probation).stats;
      && Follows(t, y)
      && (y.arrival.tsUnit > 0.0 ==>
            16.0 * (t.timing.dJitter - Abs(Late(x, y))) == 15.0 * (s.timing.dJitter - Abs(Late(x, y))))
      && (y.arrival.tsUnit <= 0.0 ==> t.timing.dJitter == 0.0)
  {
    hide TimestampDiff, CyclesFor, Advances, Extend, NextJitter, Late, Abs;
    StampDiff(x, y);
    if y.arrival.tsUnit > 0.0 {
      var transit := (y.arrival.time - x.arrival.time) / y.arrival.tsUnit;
      LateIs(x, y, transit);
      NextJitterIs(s.timing.dJitter, transit, y.stamp - x.stamp);
    }
  }

  lemma LateIs(x: Sample, y: Sample, transit: real)
    requires y.arrival.tsUnit > 0.0 && transit == (y.arrival.time - x.arrival.time) / y.arrival.tsUnit
    ensures Late(x, y) == transit - (y.stamp - x.stamp) as real
  {
    QuotientDiff(y.arrival.time, x.arrival.time, y.arrival.tsUnit);
  }

  lemma NextJitterIs(j: real, transit: real, tsDiff: int)
    ensures
      var d := Abs(transit - tsDiff as real);
      16.0 * (NextJitter(j, transit, tsDiff) - d) == 15.0 * (j - d)
  {
  }

  /** It does not matter whether a packet was early or late. */
  lemma EarlyOrLate(s: Stats, x: Sample, y: Sample, z: Sample, probation: bool)
    requires Follows(s, x) && Stamped(y) && Stamped(z) && Found(x, y) && Found(x, z)
    requires y.arrival.tsUnit > 0.0 && z.arrival.tsUnit > 0.0 && Late(x, y) == -Late(x, z)
    ensures
      Process(s, y.arrival, probation).stats.timing.dJitter == Process(s, z.arrival, probation).stats.timing.dJitter
  {
    hide Process, Late;
    JitterStep(s, x, y, probation);
    JitterStep(s, x, z, probation);
  }

  /** A packet 80 units early after a jitter of 0: the jitter is 5. */
  lemma EarlyPacket(s: Stats, a: Arrival)
    requires s.nr.sentData && s.timing.dJitter == 0.0 && s.timing.prevPackTime == 10.0 && s.timing.prevTimestamp == 1000
    requires a.time == 10.01 && a.timestamp == 1160 && a.tsUnit == 1.0 / 8000.0
    ensures Process(s, a, false).stats.timing.dJitter == 5.0
  {
    hide Process;
    var x := Sample(Arrival(0, 1000, 10.0, 0.0, false), 1000);
    var y := Sample(a, 1160);
    assert Late(x, y) == -80.0;
    JitterStep(s, x, y, false);
  }

  // ---------------------------------------------------------------- whole runs

  /** The statistics after packets `ys`; `ps` says for each whether probation applies. */
  function Run(ys: seq<Sample>, ps: seq<bool>): Stats
    requires |ps| == |ys|
  {
    if ys == [] then Initial
    else
      var n := |ys| - 1;
      Process(Run(ys[..n], ps[..n]), ys[n].arrival, ps[n]).stats
  }

  /** The packets that were accepted. */
  function Accepted(ys: seq<Sample>, ps: seq<bool>): seq<Sample>
    requires |ps| == |ys|
  {
    if ys == [] then []
    else
      var n := |ys| - 1;
      Accepted(ys[..n], ps[..n]) + if Process(Run(ys[..n], ps[..n]), ys[n].arrival, ps[n]).accept then [ys[n]] else []
  }

  /** The largest |D| of two successive packets. */
  function Spread(xs: seq<Sample>): real {
    if |xs| < 2 then 0.0 else Max(Spread(xs[..|xs| - 1]), Distance(xs[|xs| - 2], xs[|xs| - 1]))
  }

  ghost predicate AllFound(xs: seq<Sample>) {
    (forall x | x in xs :: Stamped(x)) && forall i | 0 < i < |xs| :: Found(xs[i - 1], xs[i])
  }

  lemma Between(j: real, next: real, d: real, bound: real)
    requires 0.0 <= j <= bound && d >= 0.0 && 16.0 * (next - d) == 15.0 * (j - d)
    ensures 0.0 <= next <= Max(bound, d)
  {
  }

  lemma AllFoundPrefix(xs: seq<Sample>, x: Sample)
    requires AllFound(xs + [x])
    ensures AllFound(xs) && Stamped(x) && (xs != [] ==> Found(xs[|xs| - 1], x))
  {
    var all := xs + [x];
    assert all[|xs|] == x && (xs != [] ==> Found(all[|xs| - 1], all[|xs|]));
    forall i | 0 < i < |xs|
      ensures Found(xs[i - 1], xs[i])
    {
      assert Found(all[i - 1], all[i]);
    }
    forall y | y in xs
      ensures Stamped(y)
    {
      assert y in xs + [x];
    }
  }

  /** Before the first accepted packet there is no jitter, and that packet makes none. */
  lemma NotYetAccepted(s: Stats, x: Sample, probation: bool)
    requires !s.nr.sentData && Stamped(x)
    ensures
      var r := Process(s, x.arrival, probation);
      r.stats.timing.dJitter == s.timing.dJitter && if r.accept then Follows(r.stats, x) else !r.stats.nr.sentData
  {
  }

  lemma LaterAccepted(s: Stats, x: Sample, probation: bool)
    requires s.nr.sentData
    ensures Process(s, x.arrival, probation).accept
  {
  }

  lemma SpreadMore(xs: seq<Sample>, x: Sample)
    ensures Spread(xs + [x]) == if xs == [] then 0.0 else Max(Spread(xs), Distance(xs[|xs| - 1], x))
    ensures Spread(xs) >= 0.0
  {
    assert (xs + [x])[..|xs|] == xs;
  }

  /** In every run the jitter is never negative and never above the largest |D| of two successive
      accepted packets. */
  lemma {:induction false} JitterInEveryRun(ys: seq<Sample>, ps: seq<bool>)
    requires |ps| == |ys| && (forall y | y in ys :: Stamped(y)) && AllFound(Accepted(ys, ps))
    ensures
      var s, xs := Run(ys, ps), Accepted(ys, ps);
      && 0.0 <= s.timing.dJitter <= Spread(xs)
      && if xs == [] then !s.nr.sentData else Follows(s, xs[|xs| - 1])
  {
    hide Process, Follows, Found, Distance, Stamped, Spread, AllFound;
    NothingYet();
    if ys == [] {
    } else {
      var n := |ys| - 1;
      var s, xs, y := Run(ys[..n], ps[..n]), Accepted(ys[..n], ps[..n]), ys[n];
      assert y in ys;
      if Accepted(ys, ps) == xs + [y] {
        AllFoundPrefix(xs, y);
        SpreadMore(xs, y);
      } else {
        assert Accepted(ys, ps) == xs;
      }
      JitterInEveryRun(ys[..n], ps[..n]);
      if xs == [] {
        NotYetAccepted(s, y, ps[n]);
      } else {
        SentDataOf(s, xs[|xs| - 1]);
        LaterAccepted(s, y, ps[n]);
        JitterNext(s, xs[|xs| - 1], y, ps[n], Spread(xs));
      }
    }
  }

  lemma NothingYet()
    ensures !Initial.nr.sentData && Initial.timing.dJitter == 0.0 && Spread([]) == 0.0
  {
  }

  lemma SentDataOf(s: Stats, x: Sample)
    requires Follows(s, x)
    ensures s.nr.sentData
  {
  }

  lemma JitterNext(s: Stats, x: Sample, y: Sample, probation: bool, bound: real)
    requires Follows(s, x) && Stamped(y) && Found(x, y) && 0.0 <= s.timing.dJitter <= bound
    ensures
      var t := Process(s, y.arrival, probation).stats;
      Follows(t, y) && 0.0 <= t.timing.dJitter <= Max(bound, Distance(x, y))
  {
    hide Process, Late, Found, Stamped, Follows;
    JitterStep(s, x, y, probation);
    if y.arrival.tsUnit > 0.0 {
      Between(s.timing.dJitter, Process(s, y.arrival, probation).stats.timing.dJitter, Distance(x, y), bound);
    }
  }

  /** Whatever the timestamps say, the jitter is never negative. */
  lemma {:induction false} NeverNegative(ys: seq<Sample>, ps: seq<bool>)
    requires |ps| == |ys|
    ensures Run(ys, ps).timing.dJitter >= 0.0
  {
    hide Process;
    if ys != [] {
      var n := |ys| - 1;
      NeverNegative(ys[..n], ps[..n]);
      NotNegativeAfter(Run(ys[..n], ps[..n]), ys[n].arrival, ps[n]);
    }
  }

  lemma NotNegativeAfter(s: Stats, a: Arrival, probation: bool)
    requires s.timing.dJitter >= 0.0
    ensures Process(s, a, probation).stats.timing.dJitter >= 0.0
  {
    hide TimestampDiff;
  }

  // ---------------------------------------------------------------- evenly spaced packets

  function Left(n: nat): real {
    if n == 0 then 1.0 else 15.0 / 16.0 * Left(n - 1)
  }

  function Later(s: Stats, ys: seq<Sample>): Stats {
    if ys == [] then s else Process(Later(s, ys[..|ys| - 1]), ys[|ys| - 1].arrival, false).stats
  }

  /** No packet is earlier or later than the one before. */
  ghost predicate Even(xs: seq<Sample>) {
    AllFound(xs) && forall i | 0 < i < |xs| :: xs[i].arrival.tsUnit > 0.0 && Late(xs[i - 1], xs[i]) == 0.0
  }

  lemma EvenPrefix(xs: seq<Sample>, x: Sample)
    requires Even(xs + [x]) && xs != []
    ensures Even(xs) && Stamped(x) && Found(xs[|xs| - 1], x)
    ensures x.arrival.tsUnit > 0.0 && Late(xs[|xs| - 1], x) == 0.0
  {
    hide Stamped, Found, Transit;
    var all := xs + [x];
    AllFoundPrefix(xs, x);
    forall i | 0 < i < |xs|
      ensures xs[i].arrival.tsUnit > 0.0 && Late(xs[i - 1], xs[i]) == 0.0
    {
      assert all[i] == xs[i] && all[i - 1] == xs[i - 1];
    }
    assert all[|xs|] == x && all[|xs| - 1] == xs[|xs| - 1];
  }

  /** With evenly spaced packets the jitter falls by a sixteenth with every packet; after eleven less
      than half is left. */
  lemma {:induction false} EvenPacketsFade(s: Stats, x: Sample, ys: seq<Sample>)
    requires Follows(s, x) && Even([x] + ys)
    ensures Later(s, ys).timing.dJitter == Left(|ys|) * s.timing.dJitter && Left(11) < 0.5
    ensures Follows(Later(s, ys), ([x] + ys)[|ys|])
  {
    hide Process, Follows, Late, Even, AllFound, Stamped, Found;
    assert Left(11) < 0.5 by {
      LeftSteps();
    }
    if ys != [] {
      var n := |ys| - 1;
      var xs := [x] + ys;
      assert xs[..|ys|] == [x] + ys[..n] && xs == xs[..|ys|] + [ys[n]];
      EvenPrefix(xs[..|ys|], ys[n]);
      EvenPacketsFade(s, x, ys[..n]);
      JitterStep(Later(s, ys[..n]), xs[n], ys[n], false);
      Sixteenth(Left(n), s.timing.dJitter);
    }
  }

  lemma Sixteenth(a: real, j: real)
    ensures 15.0 / 16.0 * (a * j) == 15.0 / 16.0 * a * j
  {
  }

  lemma LeftSteps()
    ensures Left(11) < 0.5
  {
    assert Left(3) == 3375.0 / 4096.0;
    assert Left(6) == 3375.0 / 4096.0 * (3375.0 / 4096.0);
    assert Left(9) == 3375.0 / 4096.0 * (3375.0 / 4096.0) * (3375.0 / 4096.0);
  }
}
