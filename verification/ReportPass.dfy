/** Which sources the report passes of a packet cover: the selection made by `FillInReportBlocks` of
    rtcppacketbuilder.cpp, on the entries of the source table. */
module ReportPass {
  import opened Bytes
  import opened ReportMarks
  import opened RtcpPackets
  import opened SourceStats
  import opened SourceData
  import opened SourceTable
  import opened SourceRuns
  import PacketQueue
  import ReceiveRuns

  // ---------------------------------------------------------------- report blocks

  function Signed32(x: uint32): int {
    if x < 0x8000_0000 then x else x - 0x1_0000_0000
  }

  /** The block says what the receive statistics of the entry say. The fraction is only determined if
      a packet came in the interval (see `ReceiveRuns.FractionFits`). */
  predicate ReportsOn(b: ReportBlock, e: Entry) {
    var n := e.stats.nr;
    var expected := Sub32(n.extHighSeqNr, n.savedExtSeqNr);
    && b.ssrc == e.ssrc && b.extHighestSeq == n.extHighSeqNr
    && b.jitter == e.stats.timing.dJitter.Floor % 0x1_0000_0000
    && b.packetsLost == Signed32(Sub32(Sub32(n.extHighSeqNr, n.baseSeqNr), n.packetsReceived))
    && (n.numNewPackets > 0 && (expected < n.numNewPackets || expected != 0) ==>
          b.fractionLost == ReceiveRuns.FractionLost(expected, n.numNewPackets))
  }

  ghost predicate ReportsOnAll(bs: seq<ReportBlock>, es: seq<Entry>) {
    |bs| == |es| && forall i | 0 <= i < |bs| :: ReportsOn(bs[i], es[i])
  }

  // ---------------------------------------------------------------- the lists

  lemma PendingOfLast(l: Last, es: seq<Entry>, e: Entry)
    ensures PendingOf(l, es + [e]) == PendingOf(l, es) + if Pending(l, e) then [e] else []
    ensures EligibleOf(l, es + [e]) == EligibleOf(l, es) + if Eligible(l, e) then [e] else []
  {
    assert (es + [e])[..|es|] == es;
  }

  lemma {:induction false} PendingOfPrefix(l: Last, es: seq<Entry>, i: nat)
    requires i <= |es|
    ensures PendingOf(l, es[..i]) <= PendingOf(l, es)
    decreases |es| - i
  {
    if i == |es| {
      assert es[..i] == es;
    } else {
      assert es[..i + 1] == es[..i] + [es[i]];
      PendingOfLast(l, es[..i], es[i]);
      PendingOfPrefix(l, es, i + 1);
    }
  }

  /** Marking as many as are pending before `i` leaves everything from `i` on alone. */
  lemma MarkedUpTo(l: Last, es: seq<Entry>, i: nat)
    requires i <= |es|
    ensures
      var r := Marked(l, es, |PendingOf(l, es[..i])|);
      && (forall k | 0 <= k < i :: r[k] == if Pending(l, es[k]) then Reported(es[k]) else es[k])
      && (forall k | i <= k < |es| :: r[k] == es[k])
  {
    forall k | 0 <= k < |es|
      ensures k < i && Pending(l, es[k]) ==> |PendingOf(l, es[..k])| < |PendingOf(l, es[..i])|
      ensures k >= i ==> |PendingOf(l, es[..k])| >= |PendingOf(l, es[..i])|
    {
      if k < i {
        assert es[..i][..k + 1] == es[..k] + [es[k]];
        PendingOfLast(l, es[..k], es[k]);
        PendingOfPrefix(l, es[..i], k + 1);
      } else {
        assert es[..k][..i] == es[..i];
        PendingOfPrefix(l, es[..k], i);
      }
    }
  }

  /** One more entry of a pass: reporting it is marking one more. */
  lemma MarkNext(l: Last, es: seq<Entry>, pos: nat)
    requires pos < |es|
    ensures
      var n := |PendingOf(l, es[..pos])|;
      && Marked(l, es, n)[pos] == es[pos]
      && PendingOf(l, es[..pos + 1])
         == (if Pending(l, es[pos]) then PendingOf(l, es[..pos]) + [es[pos]] else PendingOf(l, es[..pos]))
      && EligibleOf(l, es[..pos + 1])
         == (if Eligible(l, es[pos]) then EligibleOf(l, es[..pos]) + [es[pos]] else EligibleOf(l, es[..pos]))
      && (Pending(l, es[pos]) ==> Marked(l, es, n + 1) == Marked(l, es, n)[pos := Reported(es[pos])])
  {
    assert es[..pos + 1] == es[..pos] + [es[pos]];
    PendingOfLast(l, es[..pos], es[pos]);
    MarkedUpTo(l, es, pos);
    MarkedUpTo(l, es, pos + 1);
    hide PendingOf, EligibleOf, Eligible, Reported;
  }

  lemma FlaggedCountLast(es: seq<Entry>, e: Entry)
    ensures FlaggedCount(es + [e]) == FlaggedCount(es) + Bit(e.processed)
  {
    assert (es + [e])[..|es|] == es;
  }

  lemma NothingPendingYet(l: Last, es: seq<Entry>)
    ensures es[..0] == [] && PendingOf(l, es[..0]) == [] && EligibleOf(l, es[..0]) == [] && FlaggedCount([]) == 0
    ensures Marked(l, es, 0) == es
  {
  }

  lemma {:induction false} PendingOfShort(l: Last, es: seq<Entry>)
    ensures |PendingOf(l, es)| <= |es|
  {
    if es != [] {
      PendingOfShort(l, es[..|es| - 1]);
    }
  }

  /** What is still pending once a pass has stopped at `stop`. */
  lemma PendingAfter(l: Last, es: seq<Entry>, stop: nat, k: nat)
    requires stop <= k <= |es| && forall j | stop <= j < k :: !Pending(l, es[j])
    requires k == |es| || Pending(l, es[k])
    ensures PendingOf(l, Marked(l, es, |PendingOf(l, es[..stop])|)) == [] <==> k == |es|
  {
    var r := Marked(l, es, |PendingOf(l, es[..stop])|);
    MarkedUpTo(l, es, stop);
    forall i | 0 <= i < |es|
      ensures i < stop ==> !Pending(l, r[i])
      ensures i >= stop ==> r[i] == es[i]
    {
      ReportedEligible(l, es[i], r[i]);
    }
    hide Pending;
    NonePending(l, r);
    if k < |es| {
      assert Pending(l, r[k]);
    }
  }

  /** A pass that stopped before the end: how many were pending in all. */
  lemma StoppedAt(l: Last, es: seq<Entry>, stop: nat)
    requires stop <= |es|
    ensures PendingOf(l, es[..stop]) <= PendingOf(l, es)
    ensures stop == |es| ==> es[..stop] == es
    ensures stop < |es| && Pending(l, es[stop]) ==> |PendingOf(l, es[..stop])| < |PendingOf(l, es)|
    ensures forall j | stop <= j < |es| :: Marked(l, es, |PendingOf(l, es[..stop])|)[j] == es[j]
  {
    PendingOfPrefix(l, es, stop);
    MarkedUpTo(l, es, stop);
    hide PendingOf, Pending;
    if stop < |es| && Pending(l, es[stop]) {
      PendingAt(l, es, stop);
    }
  }

  lemma NonePending(l: Last, es: seq<Entry>)
    ensures PendingOf(l, es) == [] <==> forall i | 0 <= i < |es| :: !Pending(l, es[i])
  {
    if PendingOf(l, es) == [] {
      forall i | 0 <= i < |es|
        ensures !Pending(l, es[i])
      {
        PendingOfIn(l, es, es[i]);
      }
    } else {
      var x := PendingOf(l, es)[0];
      assert x in PendingOf(l, es);
      PendingOfIn(l, es, x);
    }
  }

  /** Reporting does not change who is eligible, and a reported entry is no longer pending. */
  lemma ReportedEligible(l: Last, e: Entry, f: Entry)
    requires f == e || f == Reported(e)
    ensures Eligible(l, f) == Eligible(l, e) && Eligible(l, e.(processed := false)) == Eligible(l, e)
    ensures Eligible(l, f.(processed := false)) == Eligible(l, e)
    ensures !Pending(l, Reported(e)) && f.ssrc == e.ssrc
  {
  }

  // ---------------------------------------------------------------- one pass

  lemma {:induction false} PendingOfIn(l: Last, es: seq<Entry>, e: Entry)
    ensures e in PendingOf(l, es) <==> e in es && Pending(l, e)
    ensures e in EligibleOf(l, es) <==> e in es && Eligible(l, e)
  {
    if es != [] {
      assert es == es[..|es| - 1] + [es[|es| - 1]];
      PendingOfIn(l, es[..|es| - 1], e);
      hide Eligible;
    }
  }

  lemma {:induction false} ListsDistinct(l: Last, es: seq<Entry>)
    requires SsrcsDistinct(es)
    ensures SsrcsDistinct(PendingOf(l, es)) && SsrcsDistinct(EligibleOf(l, es))
  {
    if es != [] {
      var init, e := es[..|es| - 1], es[|es| - 1];
      ListsDistinct(l, init);
      forall x | x in PendingOf(l, init) || x in EligibleOf(l, init)
        ensures x.ssrc != e.ssrc
      {
        PendingOfIn(l, init, x);
        assert x in init;
        var k :| 0 <= k < |init| && init[k] == x;
        assert es[k] == x;
      }
      hide Eligible, Pending;
      assert forall i | 0 <= i < |PendingOf(l, init)| :: PendingOf(l, init)[i] in PendingOf(l, init);
      assert forall i | 0 <= i < |EligibleOf(l, init)| :: EligibleOf(l, init)[i] in EligibleOf(l, init);
    }
  }

  lemma PendingAt(l: Last, es: seq<Entry>, i: nat)
    requires i < |es| && Pending(l, es[i])
    ensures |PendingOf(l, es[..i])| < |PendingOf(l, es)| && PendingOf(l, es)[|PendingOf(l, es[..i])|] == es[i]
  {
    hide Pending;
    assert es[..i + 1] == es[..i] + [es[i]];
    PendingOfLast(l, es[..i], es[i]);
    PendingOfPrefix(l, es, i + 1);
  }

  /** No source gets two blocks in one pass, and exactly those that get one are flagged by it. */
  lemma OncePerPass(l: Last, es: seq<Entry>, n: nat, i: nat)
    requires SsrcsDistinct(es) && n <= |PendingOf(l, es)| && i < |es|
    ensures SsrcsDistinct(PendingOf(l, es)[..n])
    ensures Marked(l, es, n)[i].processed <==> es[i].processed || es[i] in PendingOf(l, es)[..n]
  {
    hide Eligible, PendingOf, SsrcsDistinct;
    ListsDistinct(l, es);
    FrontDistinct(PendingOf(l, es), n);
    if Pending(l, es[i]) {
      PendingAt(l, es, i);
      InFront(PendingOf(l, es), |PendingOf(l, es[..i])|, n);
    } else {
      PendingOfIn(l, es, es[i]);
      assert es[i] !in PendingOf(l, es)[..n];
    }
  }

  lemma FrontDistinct(es: seq<Entry>, n: nat)
    requires SsrcsDistinct(es) && n <= |es|
    ensures SsrcsDistinct(es[..n])
  {
  }

  lemma InFront(es: seq<Entry>, k: nat, n: nat)
    requires SsrcsDistinct(es) && n <= |es| && k < |es|
    ensures es[k] in es[..n] <==> k < n
  {
    if k < n {
      assert es[..n][k] == es[k];
    }
  }

  // ---------------------------------------------------------------- two passes in one packet

  /** After a pass that covered everything, the flags are cleared and a second pass may start. */
  function SecondStart(l: Last, es: seq<Entry>): seq<Entry> {
    Cleared(Marked(l, es, |PendingOf(l, es)|))
  }

  ghost predicate SameSsrcs(es: seq<Entry>, fs: seq<Entry>) {
    |es| == |fs| && forall i | 0 <= i < |es| :: es[i].ssrc == fs[i].ssrc
  }

  /** Same sources, same eligibility, and no flag set in `fs`. */
  ghost predicate Restarted(l: Last, es: seq<Entry>, fs: seq<Entry>) {
    && SameSsrcs(es, fs)
    && forall i | 0 <= i < |es| :: Eligible(l, fs[i]) == Eligible(l, es[i]) && !fs[i].processed
  }

  lemma {:induction false} RestartedPending(l: Last, es: seq<Entry>, fs: seq<Entry>)
    requires Restarted(l, es, fs)
    ensures SameSsrcs(EligibleOf(l, es), PendingOf(l, fs))
  {
    if es != [] {
      RestartedPending(l, es[..|es| - 1], fs[..|fs| - 1]);
      hide Eligible;
      assert es[|es| - 1].ssrc == fs[|es| - 1].ssrc;
    }
  }

  /** The second pass starts over with every eligible source. */
  lemma SecondPassPending(l: Last, es: seq<Entry>)
    ensures SameSsrcs(EligibleOf(l, es), PendingOf(l, SecondStart(l, es)))
  {
    var m := Marked(l, es, |PendingOf(l, es)|);
    forall i | 0 <= i < |es|
      ensures Eligible(l, SecondStart(l, es)[i]) == Eligible(l, es[i])
    {
      ReportedEligible(l, es[i], m[i]);
    }
    RestartedPending(l, es, SecondStart(l, es));
  }

  ghost predicate Lacks(es: seq<Entry>, ssrc: uint32) {
    forall i | 0 <= i < |es| :: es[i].ssrc != ssrc
  }

  ghost predicate Disjoint(es: seq<Entry>, fs: seq<Entry>) {
    forall j | 0 <= j < |fs| :: Lacks(es, fs[j].ssrc)
  }

  /** When a packet takes `m` sources in a second pass, none of them is there twice exactly if the first
      `m` eligible sources had all been flagged before the packet. */
  lemma NoSourceTwice(l: Last, es: seq<Entry>, m: nat)
    requires SsrcsDistinct(es) && m <= |EligibleOf(l, es)|
    ensures m <= |PendingOf(l, SecondStart(l, es))|
    ensures Disjoint(PendingOf(l, es), PendingOf(l, SecondStart(l, es))[..m])
      <==> forall k | 0 <= k < m :: EligibleOf(l, es)[k].processed
  {
    SecondPassPending(l, es);
    var first, all, second := PendingOf(l, es), EligibleOf(l, es), PendingOf(l, SecondStart(l, es));
    hide PendingOf, EligibleOf, Eligible, Lacks;
    forall k | 0 <= k < m
      ensures all[k].processed <==> Lacks(first, second[k].ssrc)
    {
      InFirst(l, es, k);
      assert all[k].ssrc == second[k].ssrc;
    }
    if Disjoint(first, second[..m]) {
      forall k | 0 <= k < m
        ensures all[k].processed
      {
        assert second[..m][k] == second[k];
      }
    }
  }

  /** An eligible source was in the first pass exactly if it was not flagged before. */
  lemma InFirst(l: Last, es: seq<Entry>, k: nat)
    requires SsrcsDistinct(es) && k < |EligibleOf(l, es)|
    ensures EligibleOf(l, es)[k].processed <==> Lacks(PendingOf(l, es), EligibleOf(l, es)[k].ssrc)
  {
    var x, first := EligibleOf(l, es)[k], PendingOf(l, es);
    assert x in EligibleOf(l, es);
    PendingOfIn(l, es, x);
    hide PendingOf, EligibleOf, Eligible;
    if x.processed {
      forall i | 0 <= i < |first|
        ensures first[i].ssrc != x.ssrc
      {
        assert first[i] in first;
        PendingOfIn(l, es, first[i]);
        SameSsrcSameEntry(es, first[i], x);
      }
    } else {
      assert x in first;
    }
  }

  lemma SameSsrcSameEntry(es: seq<Entry>, x: Entry, y: Entry)
    requires SsrcsDistinct(es) && x in es && y in es
    ensures x.ssrc == y.ssrc ==> x == y
  {
    var i :| 0 <= i < |es| && es[i] == x;
    var j :| 0 <= j < |es| && es[j] == y;
  }

  function FlaggedCount(es: seq<Entry>): nat {
    if es == [] then 0 else FlaggedCount(es[..|es| - 1]) + Bit(es[|es| - 1].processed)
  }

  /** The flagged entries come first. */
  ghost predicate FlaggedFirst(es: seq<Entry>) {
    forall i, j | 0 <= i < j < |es| :: es[j].processed ==> es[i].processed
  }

  lemma {:induction false} FlaggedCountBound(es: seq<Entry>)
    ensures FlaggedCount(es) <= |es|
    ensures FlaggedCount(es) == |es| <==> forall k | 0 <= k < |es| :: es[k].processed
  {
    if es != [] {
      FlaggedCountBound(es[..|es| - 1]);
      assert forall k | 0 <= k < |es| - 1 :: es[..|es| - 1][k] == es[k];
    }
  }

  /** As many at the front as are flagged at all: they are all flagged exactly if the flagged ones come
      first. */
  lemma {:induction false} FrontFlagged(es: seq<Entry>)
    ensures FlaggedCount(es) <= |es|
    ensures (forall k | 0 <= k < FlaggedCount(es) :: es[k].processed) <==> FlaggedFirst(es)
  {
    FlaggedCountBound(es);
    if es != [] {
      var init, e := es[..|es| - 1], es[|es| - 1];
      FrontFlagged(init);
      FlaggedCountBound(init);
      assert forall k | 0 <= k < |init| :: init[k] == es[k];
      var c := FlaggedCount(init);
      if !e.processed {
        assert FlaggedFirst(es) <==> FlaggedFirst(init);
      } else if c == |init| {
        assert FlaggedFirst(es);
      } else {
        assert exists k :: 0 <= k < |init| && !init[k].processed;
        var k :| 0 <= k < |init| && !init[k].processed;
        assert !FlaggedFirst(es);
        if forall k | 0 <= k < c + 1 :: es[k].processed {
          assert FlaggedFirst(init);
          MoreThanCounted(init, c + 1);
        }
      }
    }
  }

  lemma {:induction false} MoreThanCounted(es: seq<Entry>, n: nat)
    requires n <= |es| && forall k | 0 <= k < n :: es[k].processed
    ensures FlaggedCount(es) >= n
    decreases |es|
  {
    if n == |es| {
      FlaggedCountBound(es);
    } else {
      MoreThanCounted(es[..|es| - 1], n);
    }
  }

  /** A second pass that takes in as many sources as the first one skipped repeats none exactly if the
      skipped sources were the first eligible ones. */
  lemma NoSourceTwiceWhenSkippedFit(l: Last, es: seq<Entry>)
    requires SsrcsDistinct(es)
    ensures
      var skipped := FlaggedCount(EligibleOf(l, es));
      && skipped <= |PendingOf(l, SecondStart(l, es))|
      && (Disjoint(PendingOf(l, es), PendingOf(l, SecondStart(l, es))[..skipped]) <==> FlaggedFirst(EligibleOf(l, es)))
  {
    FrontFlagged(EligibleOf(l, es));
    NoSourceTwice(l, es, FlaggedCount(EligibleOf(l, es)));
  }

  // ---------------------------------------------------------------- the blocks of a packet

  /** The blocks of a packet: `first` from a pass over the entries `es`, then `second` from a pass that
      started over. */
  ghost predicate TwoPasses(bs: seq<ReportBlock>, l: Last, es: seq<Entry>, first: nat, second: nat) {
    && |bs| == first + second && first <= |PendingOf(l, es)| && second <= |PendingOf(l, SecondStart(l, es))|
    && ReportsOnAll(bs[..first], PendingOf(l, es)[..first])
    && ReportsOnAll(bs[first..], PendingOf(l, SecondStart(l, es))[..second])
  }

  ghost predicate DifferentSources(bs: seq<ReportBlock>) {
    forall i, j | 0 <= i < j < |bs| :: bs[i].ssrc != bs[j].ssrc
  }

  /** The first `n` eligible sources are flagged. */
  ghost predicate FlaggedBefore(l: Last, es: seq<Entry>, n: nat) {
    n <= |EligibleOf(l, es)| && forall k | 0 <= k < n :: EligibleOf(l, es)[k].processed
  }

  lemma BlocksOfTwo(bs: seq<ReportBlock>, a: seq<Entry>, b: seq<Entry>)
    requires |bs| == |a| + |b| && ReportsOnAll(bs[..|a|], a) && ReportsOnAll(bs[|a|..], b)
    requires SsrcsDistinct(a) && SsrcsDistinct(b)
    ensures DifferentSources(bs) <==> Disjoint(a, b)
  {
    var n := |a|;
    forall i | 0 <= i < |bs|
      ensures bs[i].ssrc == if i < n then a[i].ssrc else b[i - n].ssrc
    {
      assert i < n ==> bs[..n][i] == bs[i];
      assert i >= n ==> bs[n..][i - n] == bs[i];
    }
    hide ReportsOn;
    if DifferentSources(bs) {
      forall j, i | 0 <= j < |b| && 0 <= i < |a|
        ensures a[i].ssrc != b[j].ssrc
      {
        assert bs[i].ssrc != bs[n + j].ssrc;
      }
    }
  }

  lemma SameSsrcsDistinct(es: seq<Entry>, fs: seq<Entry>)
    requires SameSsrcs(es, fs) && SsrcsDistinct(es)
    ensures SsrcsDistinct(fs)
  {
  }

  /** The blocks of a packet are of different sources exactly if the sources its second pass took were all
      flagged before the packet. */
  lemma BlocksDiffer(bs: seq<ReportBlock>, l: Last, es: seq<Entry>, first: nat, second: nat)
    requires SsrcsDistinct(es) && TwoPasses(bs, l, es, first, second)
    requires second > 0 ==> first == |PendingOf(l, es)|
    ensures second <= |EligibleOf(l, es)|
    ensures DifferentSources(bs) <==> FlaggedBefore(l, es, second)
  {
    hide PendingOf, EligibleOf, SecondStart, ReportsOn, Disjoint, DifferentSources;
    SecondPassPending(l, es);
    ListsDistinct(l, es);
    var p, q := PendingOf(l, es), PendingOf(l, SecondStart(l, es));
    SameSsrcsDistinct(EligibleOf(l, es), q);
    FrontDistinct(p, first);
    FrontDistinct(q, second);
    BlocksOfTwo(bs, p[..first], q[..second]);
    NoSourceTwice(l, es, second);
    if second > 0 {
      assert p[..first] == p;
    } else {
      NothingShared(p[..first], q[..second]);
    }
  }

  lemma NothingShared(es: seq<Entry>, none: seq<Entry>)
    requires none == []
    ensures Disjoint(es, none)
  {
  }

  /** As many sources as were skipped can come again. */
  lemma SkippedPending(l: Last, es: seq<Entry>)
    ensures FlaggedCount(EligibleOf(l, es)) <= |PendingOf(l, SecondStart(l, es))|
    ensures Marked(l, SecondStart(l, es), 0) == SecondStart(l, es) == Cleared(Marked(l, es, |PendingOf(l, es)|))
  {
    hide PendingOf, EligibleOf, SecondStart;
    SecondPassPending(l, es);
    FlaggedCountBound(EligibleOf(l, es));
    NothingPendingYet(l, SecondStart(l, es));
    SecondStartIs(l, es);
  }

  lemma SecondStartIs(l: Last, es: seq<Entry>)
    ensures SecondStart(l, es) == Cleared(Marked(l, es, |PendingOf(l, es)|))
  {
  }

  lemma {:induction false} LastPending(l: Last, es: seq<Entry>) returns (i: nat)
    requires PendingOf(l, es) != []
    ensures i < |es| && Pending(l, es[i]) && |PendingOf(l, es[..i])| == |PendingOf(l, es)| - 1
  {
    hide Pending;
    var last := |es| - 1;
    if Pending(l, es[last]) {
      i := last;
    } else {
      i := LastPending(l, es[..last]);
      assert es[..last][..i] == es[..i];
    }
  }

  /** A pass leaves nothing pending exactly if it took everything. */
  lemma PendingAfterPass(l: Last, es: seq<Entry>, n: nat)
    requires n <= |PendingOf(l, es)|
    ensures PendingOf(l, Marked(l, es, n)) == [] <==> n == |PendingOf(l, es)|
  {
    hide PendingOf, Pending;
    var r := Marked(l, es, n);
    NonePending(l, r);
    if n < |PendingOf(l, es)| {
      var i := LastPending(l, es);
      assert r[i] == es[i];
    } else {
      forall i | 0 <= i < |es|
        ensures !Pending(l, r[i])
      {
        if Pending(l, es[i]) {
          PendingAt(l, es, i);
          ReportedEligible(l, es[i], r[i]);
        }
      }
    }
  }
}
