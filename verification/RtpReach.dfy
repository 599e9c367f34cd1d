/** Which entries of the source table an RTP packet reaches, and what it leaves of them. */
module RtpReach {
  import opened Bytes
  import opened SourceStats
  import opened SourceData
  import opened SourceTable
  import opened SourceRuns

  /** A contributing source that a packet from `from` may mark. */
  function Marked(e: Entry, from: Sender): Entry {
    if Collides(e.rtp, e.rtcp, from) then e else e.(csrc := true, validated := true, rtp := Set(from))
  }

  /** An entry made for a contributing source, which has an address once it was named again. */
  predicate NewCsrc(e: Entry, probation: ProbationType, from: Sender) {
    e.rtp in {Unset, Set(from)} && e == NewEntry(e.ssrc, probation).(csrc := true, validated := true, rtp := e.rtp)
  }

  predicate Lacks(es: seq<Entry>, ssrc: uint32) {
    forall i | 0 <= i < |es| :: es[i].ssrc != ssrc
  }

  /** What a list of contributing sources makes of the entries `es`: those in the list are marked, those
      missing are appended, and all others stay as they are. */
  ghost predicate ListMarks(es: seq<Entry>, fs: seq<Entry>, csrcs: seq<uint32>, probation: ProbationType,
      from: Sender) {
    && |es| <= |fs|
    && (forall k | 0 <= k < |es| :: fs[k] == if es[k].ssrc in csrcs then Marked(es[k], from) else es[k])
    && (forall k | |es| <= k < |fs| :: NewCsrc(fs[k], probation, from) && fs[k].ssrc in csrcs && Lacks(es, fs[k].ssrc))
    && (forall c | c in csrcs :: !Lacks(fs, c))
  }

  lemma MarkedTwice(e: Entry, probation: ProbationType, from: Sender)
    ensures Marked(Marked(e, from), from) == Marked(e, from) && Marked(e, from).ssrc == e.ssrc
    ensures NewCsrc(e, probation, from) ==> NewCsrc(Marked(e, from), probation, from)
    ensures AsCsrc(Addressed(e, from, true)) == e.(csrc := true, validated := true, rtp := Set(from))
  {
  }

  lemma NewIsCsrc(ssrc: uint32, probation: ProbationType, from: Sender)
    ensures NewCsrc(AsCsrc(NewEntry(ssrc, probation)), probation, from)
    ensures AsCsrc(NewEntry(ssrc, probation)).ssrc == ssrc
  {
  }

  lemma OneMarks(t: Table, c: uint32, from: Sender)
    ensures
      var u, i := WithCsrc(t, c, from), Index(t.entries, c);
      && u.probation == t.probation
      && u.entries == if i < |t.entries| then t.entries[i := Marked(t.entries[i], from)]
                      else t.entries + [AsCsrc(NewEntry(c, t.probation))]
  {
    hide Index, NewEntry, IsActive, Collides;
  }

  /** A source that is there is marked. */
  lemma MarkNext(es: seq<Entry>, fs: seq<Entry>, csrcs: seq<uint32>, i: nat, probation: ProbationType, from: Sender)
    requires i < |fs| && SsrcsDistinct(fs) && ListMarks(es, fs, csrcs, probation, from)
    ensures ListMarks(es, fs[i := Marked(fs[i], from)], csrcs + [fs[i].ssrc], probation, from)
  {
    hide NewEntry, Marked, NewCsrc, AsCsrc, Lacks;
    var c, gs := fs[i].ssrc, fs[i := Marked(fs[i], from)];
    MarkedTwice(fs[i], probation, from);
    forall k | 0 <= k < |fs|
      ensures gs[k].ssrc == fs[k].ssrc && (k != i ==> gs[k] == fs[k] && fs[k].ssrc != c)
      ensures k < |es| ==> fs[k].ssrc == es[k].ssrc && Marked(Marked(es[k], from), from) == Marked(es[k], from)
    {
      if k < |es| {
        MarkedTwice(es[k], probation, from);
      }
    }
    forall x | x in csrcs + [c]
      ensures !Lacks(gs, x)
    {
      SameLacks(fs, gs, x);
      IsThere(fs, i);
    }
  }

  lemma SameLacks(fs: seq<Entry>, gs: seq<Entry>, x: uint32)
    requires |fs| <= |gs| && forall k | 0 <= k < |fs| :: gs[k].ssrc == fs[k].ssrc
    ensures !Lacks(fs, x) ==> !Lacks(gs, x)
  {
  }

  lemma IsThere(fs: seq<Entry>, i: nat)
    requires i < |fs|
    ensures !Lacks(fs, fs[i].ssrc)
  {
  }

  lemma Fewer(es: seq<Entry>, fs: seq<Entry>, x: uint32)
    requires |es| <= |fs| && (forall k | 0 <= k < |es| :: fs[k].ssrc == es[k].ssrc) && Lacks(fs, x)
    ensures Lacks(es, x)
  {
  }

  /** A source that is not there is appended. */
  lemma AppendNext(es: seq<Entry>, fs: seq<Entry>, csrcs: seq<uint32>, f: Entry, probation: ProbationType, from: Sender)
    requires Lacks(fs, f.ssrc) && NewCsrc(f, probation, from) && ListMarks(es, fs, csrcs, probation, from)
    ensures ListMarks(es, fs + [f], csrcs + [f.ssrc], probation, from)
  {
    hide NewEntry, Marked, NewCsrc, AsCsrc, Lacks;
    var c, gs := f.ssrc, fs + [f];
    forall k | 0 <= k < |es|
      ensures fs[k].ssrc == es[k].ssrc && es[k].ssrc != c
    {
      MarkedTwice(es[k], probation, from);
      NotThere(fs, c, k);
    }
    Fewer(es, fs, c);
    forall x | x in csrcs + [c]
      ensures !Lacks(gs, x)
    {
      SameLacks(fs, gs, x);
      IsThere(gs, |fs|);
    }
  }

  lemma NotThere(fs: seq<Entry>, c: uint32, k: nat)
    requires Lacks(fs, c) && k < |fs|
    ensures fs[k].ssrc != c
  {
  }

  lemma ListNext(es: seq<Entry>, fs: seq<Entry>, csrcs: seq<uint32>, c: uint32, probation: ProbationType, from: Sender,
      gs: seq<Entry>)
    requires SsrcsDistinct(fs) && ListMarks(es, fs, csrcs, probation, from)
    requires
      var i := Index(fs, c);
      gs == if i < |fs| then fs[i := Marked(fs[i], from)] else fs + [AsCsrc(NewEntry(c, probation))]
    ensures ListMarks(es, gs, csrcs + [c], probation, from)
  {
    hide NewEntry, Marked, NewCsrc, AsCsrc, ListMarks, SsrcsDistinct;
    if Index(fs, c) < |fs| {
      MarkNext(es, fs, csrcs, Index(fs, c), probation, from);
    } else {
      NewIsCsrc(c, probation, from);
      AppendNext(es, fs, csrcs, AsCsrc(NewEntry(c, probation)), probation, from);
    }
  }

  lemma {:induction false} ListReaches(t: Table, csrcs: seq<uint32>, from: Sender)
    requires TableOk(t)
    ensures ListMarks(t.entries, WithCsrcs(t, csrcs, from).entries, csrcs, t.probation, from)
    ensures WithCsrcs(t, csrcs, from).probation == t.probation
  {
    hide TableOk, WithCsrc, ListMarks, SsrcsDistinct;
    if csrcs == [] {
      EmptyMarks(t.entries, t.probation, from);
    } else {
      var init, c := csrcs[..|csrcs| - 1], csrcs[|csrcs| - 1];
      ListReaches(t, init, from);
      WithCsrcsOk(t, init, from);
      var u := WithCsrcs(t, init, from);
      DistinctSources(u);
      OneMarks(u, c, from);
      ListNext(t.entries, u.entries, init, c, t.probation, from, WithCsrc(u, c, from).entries);
      assert csrcs == init + [c];
    }
  }

  lemma EmptyMarks(es: seq<Entry>, probation: ProbationType, from: Sender)
    ensures ListMarks(es, es, [], probation, from)
  {
  }

  /** A packet from an address that collides changes nothing. Any other changes the entry of its source,
      made if need be; and if this source is valid afterwards, the contributing sources of the packet are
      marked or made, and no others; if it is not, nothing else changes. */
  lemma PacketReaches(t: Table, p: Incoming, from: Sender)
    requires TableOk(t)
    ensures
      var i, u := Index(t.entries, p.ssrc), AfterRtp(t, p, from);
      var e := if i < |t.entries| then t.entries[i] else NewEntry(p.ssrc, t.probation);
      var f := WithRtp(e, p, from);
      if Collides(e.rtp, e.rtcp, from) then u == t
      else
        var es := if i < |t.entries| then t.entries[i := f] else t.entries + [f];
        if f.validated then ListMarks(es, u.entries, p.csrcs, t.probation, from) else u.entries == es
  {
    hide TableOk, WithRtp, Collides, WithCsrcs, Index, Sound, NewEntry, IsActive, ListMarks, SsrcsDistinct;
    var i, u := Index(t.entries, p.ssrc), Obtained(t, p.ssrc);
    ObtainedOk(t, p.ssrc);
    ObtainedEntry(t, p.ssrc);
    var e := u.entries[i];
    if !Collides(e.rtp, e.rtcp, from) {
      var f := WithRtp(e, p, from);
      WithRtpKeeps(e, p, from);
      assert i == |t.entries| ==> (t.entries + [NewEntry(p.ssrc, t.probation)])[i := f] == t.entries + [f];
      ChangedOk(u, i, f);
      ListReaches(Changed(u, i, f), p.csrcs, from);
    } else {
      NewNeverCollides(p.ssrc, t.probation, from);
    }
  }

  lemma NewNeverCollides(ssrc: uint32, probation: ProbationType, from: Sender)
    ensures var e := NewEntry(ssrc, probation); !Collides(e.rtp, e.rtcp, from)
  {
  }
}
