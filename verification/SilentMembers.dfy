/** Runs in which members that nobody counted in are counted out: contributing sources are heard by
    RTCP, a mixer names them, and all of them leave. */
module SilentMembers {
  import opened Bytes
  import opened PacketQueue
  import opened SourceStats
  import opened SourceData
  import opened SourceTable
  import opened SourceRuns

  /** A contributing source: heard by RTCP, then named by the mixer, then gone. */
  datatype Stage = Heard | Named | Gone

  function Next(s: Stage): Stage {
    if s == Heard then Named else Gone
  }

  function Member(c: uint32, s: Stage, time: Time, from: Sender): (e: Entry)
    ensures e.ssrc == c && !e.own && !e.sender && (IsActive(e) <==> s == Named) && |e.items| == NUMITEMS
    ensures e.rtcp == Set(from) && e.rtp == if s == Heard then Unset else Set(from)
  {
    var h := Touched(Addressed(NewEntry(c, NoProbation), from, false), time);
    var n := AsCsrc(Addressed(h, from, true));
    if s == Heard then h else if s == Named then n else SaidBye(n, time)
  }

  /** All of them, the first `k` one stage further than the others. */
  function Members(cs: seq<uint32>, k: nat, s: Stage, time: Time, from: Sender): (es: seq<Entry>)
    ensures |es| == |cs|
    ensures forall i | 0 <= i < |cs| :: es[i] == Member(cs[i], if i < k then Next(s) else s, time, from)
  {
    seq(|cs|, i requires 0 <= i < |cs| => Member(cs[i], if i < k then Next(s) else s, time, from))
  }

  ghost predicate Different(cs: seq<uint32>) {
    forall i, j | 0 <= i < j < |cs| :: cs[i] != cs[j]
  }

  function AliveAll(cs: seq<uint32>, time: Time, from: Sender): (evs: seq<Event>)
    ensures |evs| == |cs| && forall i | 0 <= i < |cs| :: evs[i] == RtcpCame(cs[i], Alive(time), from)
  {
    seq(|cs|, i requires 0 <= i < |cs| => RtcpCame(cs[i], Alive(time), from))
  }

  function ByeAll(cs: seq<uint32>, time: Time, from: Sender): (evs: seq<Event>)
    ensures |evs| == |cs| && forall i | 0 <= i < |cs| :: evs[i] == RtcpCame(cs[i], Bye(time), from)
  {
    seq(|cs|, i requires 0 <= i < |cs| => RtcpCame(cs[i], Bye(time), from))
  }

  lemma NotThere(es: seq<Entry>, c: uint32)
    requires forall i | 0 <= i < |es| :: es[i].ssrc != c
    ensures Index(es, c) == |es|
  {
  }

  // ---------------------------------------------------------------- they are heard

  lemma {:induction false} AllHeard(cs: seq<uint32>, time: Time, from: Sender)
    requires Different(cs)
    ensures AllReadable(AliveAll(cs, time, from))
    ensures Run(NoProbation, AliveAll(cs, time, from))
         == Table(Members(cs, 0, Heard, time, from), |cs|, 0, 0, 0, NoProbation)
  {
    hide Run, TableOk, Member;
    if cs == [] {
      EmptyRun(NoProbation);
      assert AliveAll(cs, time, from) == [] && Members(cs, 0, Heard, time, from) == [];
    } else {
      var front, c := cs[..|cs| - 1], cs[|cs| - 1];
      AllHeard(front, time, from);
      assert AliveAll(cs, time, from)[..|cs| - 1] == AliveAll(front, time, from);
      RunStep(NoProbation, AliveAll(cs, time, from));
      var t := Table(Members(front, 0, Heard, time, from), |front|, 0, 0, 0, NoProbation);
      NotThere(t.entries, c);
      OneHeard(t, c, time, from);
      assert Members(cs, 0, Heard, time, from) == t.entries + [Member(c, Heard, time, from)];
    }
  }

  lemma OneHeard(t: Table, c: uint32, time: Time, from: Sender)
    requires ItemsReady(t.entries) && Index(t.entries, c) == |t.entries| && t.probation == NoProbation
    ensures AfterRtcp(t, c, Alive(time), from)
         == t.(entries := t.entries + [Member(c, Heard, time, from)], total := t.total + 1)
  {
    hide Index;
    var n := |t.entries|;
    assert (t.entries + [NewEntry(c, NoProbation)])[n := Member(c, Heard, time, from)]
        == t.entries + [Member(c, Heard, time, from)];
  }

  // ---------------------------------------------------------------- the mixer names them

  /** Without probation the first packet makes the mixer active. */
  lemma MixerEntry(p: Incoming, from: Sender)
    ensures
      var f := WithRtp(NewEntry(p.ssrc, NoProbation), p, from);
      && f.ssrc == p.ssrc && IsActive(f) && f.sender && !f.own
      && f.rtp == Set(from) && f.rtcp == Unset && |f.items| == NUMITEMS
  {
    hide Enqueue;
  }

  lemma OneNamed(t: Table, i: nat, c: uint32, time: Time, from: Sender)
    requires i < |t.entries| && Index(t.entries, c) == i && t.entries[i] == Member(c, Heard, time, from)
    ensures WithCsrc(t, c, from) == t.(entries := t.entries[i := Member(c, Named, time, from)], silent := t.silent + 1)
  {
    hide Index;
  }

  lemma {:induction false} SomeNamed(t: Table, cs: seq<uint32>, k: nat, f: Entry, time: Time, from: Sender)
    requires Different(cs) && k <= |cs| && f.ssrc !in cs
    requires t.entries == Members(cs, 0, Heard, time, from) + [f]
    ensures WithCsrcs(t, cs[..k], from)
         == t.(entries := Members(cs, k, Heard, time, from) + [f], silent := t.silent + k)
  {
    hide Member, WithCsrc;
    if k > 0 {
      SomeNamed(t, cs, k - 1, f, time, from);
      var es := Members(cs, k - 1, Heard, time, from) + [f];
      assert cs[..k][..k - 1] == cs[..k - 1];
      assert es[k - 1].ssrc == cs[k - 1];
      IndexAt(es, k - 1);
      OneNamed(WithCsrcs(t, cs[..k - 1], from), k - 1, cs[k - 1], time, from);
      assert es[k - 1 := Member(cs[k - 1], Named, time, from)] == Members(cs, k, Heard, time, from) + [f];
    }
  }

  lemma AllNamed(t: Table, cs: seq<uint32>, p: Incoming, time: Time, from: Sender)
    requires Different(cs) && p.csrcs == cs && p.ssrc !in cs
    requires t == Table(Members(cs, 0, Heard, time, from), |cs|, 0, 0, 0, NoProbation)
    ensures
      var f := WithRtp(NewEntry(p.ssrc, NoProbation), p, from);
      AfterRtp(t, p, from)
        == Table(Members(cs, 0, Named, time, from) + [f], |cs| + 1, 1, 1, |cs|, NoProbation)
  {
    hide Member, WithRtp, WithCsrcs;
    var e, n := NewEntry(p.ssrc, NoProbation), |cs|;
    var f := WithRtp(e, p, from);
    MixerEntry(p, from);
    NotThere(t.entries, p.ssrc);
    assert (t.entries + [e])[n := f] == t.entries + [f];
    var c := Table(t.entries + [f], n + 1, 1, 1, 0, NoProbation);
    assert Changed(Obtained(t, p.ssrc), n, f) == c;
    SomeNamed(c, cs, n, f, time, from);
    assert cs[..n] == cs;
    assert Members(cs, n, Heard, time, from) == Members(cs, 0, Named, time, from);
  }

  // ---------------------------------------------------------------- they leave

  /** The BYE of an active source counts it out. */
  lemma Leaves(t: Table, i: nat, from: Sender, time: Time)
    requires ItemsReady(t.entries) && i < |t.entries| && Index(t.entries, t.entries[i].ssrc) == i
    requires IsActive(t.entries[i]) && !t.entries[i].own && !Collides(t.entries[i].rtcp, t.entries[i].rtp, from)
    ensures
      var e := t.entries[i];
      AfterRtcp(t, e.ssrc, Bye(time), from)
        == t.(entries := t.entries[i := SaidBye(Addressed(e, from, false), time)], active := t.active - 1)
  {
    hide Index;
  }

  lemma MemberLeaves(c: uint32, time: Time, from: Sender)
    ensures SaidBye(Addressed(Member(c, Named, time, from), from, false), time) == Member(c, Gone, time, from)
    ensures !Collides(Member(c, Named, time, from).rtcp, Member(c, Named, time, from).rtp, from)
  {
  }

  lemma SameSource(e: Entry, from: Sender, time: Time)
    ensures SaidBye(Addressed(e, from, false), time).ssrc == e.ssrc
  {
  }

  ghost function Leaving(cs: seq<uint32>, p: Incoming, time: Time, from: Sender): (evs: seq<Event>) {
    AliveAll(cs, time, from) + [RtpCame(p, from)] + [RtcpCame(p.ssrc, Bye(time), from)]
  }

  lemma MixerLeaves(cs: seq<uint32>, p: Incoming, time: Time, from: Sender)
    requires Different(cs) && p.csrcs == cs && p.ssrc !in cs
    ensures AllReadable(Leaving(cs, p, time, from))
    ensures
      var f := WithRtp(NewEntry(p.ssrc, NoProbation), p, from);
      var g := SaidBye(Addressed(f, from, false), time);
      g.ssrc == p.ssrc &&
      Run(NoProbation, Leaving(cs, p, time, from))
        == Table(Members(cs, 0, Named, time, from) + [g], |cs| + 1, 1, 0, |cs|, NoProbation)
  {
    hide Run, TableOk, Member, WithRtp, AfterRtp, AfterRtcp, SaidBye, Addressed;
    var evs := Leaving(cs, p, time, from);
    var n := |cs|;
    AllHeard(cs, time, from);
    assert evs[..n + 1][..n] == AliveAll(cs, time, from) && evs[..n + 1][n] == RtpCame(p, from);
    RunStep(NoProbation, evs[..n + 1]);
    assert evs[..n] == AliveAll(cs, time, from);
    AllNamed(Run(NoProbation, evs[..n]), cs, p, time, from);
    RunStep(NoProbation, evs);
    var t := Run(NoProbation, evs[..n + 1]);
    MixerEntry(p, from);
    IndexAt(t.entries, n);
    Leaves(t, n, from, time);
    var g := SaidBye(Addressed(t.entries[n], from, false), time);
    SameSource(t.entries[n], from, time);
    assert t.entries[n := g] == Members(cs, 0, Named, time, from) + [g];
  }

  /** However many contributing sources a mixer named: when the mixer has left the active count is 0, and
      every one of them that leaves takes it one further below. */
  lemma {:induction false} ActiveCountBelowZero(cs: seq<uint32>, p: Incoming, k: nat, time: Time, from: Sender)
    requires Different(cs) && p.csrcs == cs && p.ssrc !in cs && k <= |cs|
    ensures AllReadable(Leaving(cs, p, time, from) + ByeAll(cs[..k], time, from))
    ensures
      var t := Run(NoProbation, Leaving(cs, p, time, from) + ByeAll(cs[..k], time, from));
      && t.active == 0 - k && t.senders == 1 && |t.entries| == |cs| + 1
      && t.entries[..|cs|] == Members(cs, k, Named, time, from)
      && SsrcsDistinct(t.entries) && t.entries[|cs|].ssrc == p.ssrc
  {
    hide Run, TableOk, Member, WithRtp, AfterRtcp, Leaving, SaidBye, Addressed, Collides;
    var evs := Leaving(cs, p, time, from) + ByeAll(cs[..k], time, from);
    MixerLeaves(cs, p, time, from);
    assert AllReadable(evs);
    DistinctSources(Run(NoProbation, evs));
    if k == 0 {
      assert evs == Leaving(cs, p, time, from);
      MixerEntry(p, from);
    } else {
      ActiveCountBelowZero(cs, p, k - 1, time, from);
      assert evs[..|evs| - 1] == Leaving(cs, p, time, from) + ByeAll(cs[..k - 1], time, from);
      assert evs[|evs| - 1] == RtcpCame(cs[k - 1], Bye(time), from);
      RunStep(NoProbation, evs);
      var t := Run(NoProbation, evs[..|evs| - 1]);
      assert t.entries[k - 1] == t.entries[..|cs|][k - 1];
      IndexAt(t.entries, k - 1);
      MemberLeaves(cs[k - 1], time, from);
      Leaves(t, k - 1, from, time);
      assert t.entries[k - 1 := Member(cs[k - 1], Gone, time, from)][..|cs|] == Members(cs, k, Named, time, from);
    }
  }
}
