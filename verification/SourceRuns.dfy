/** What every reachable source table keeps: the cached counts against a recount, and the address
    rules of section 8.2 of RFC 3550. */
module SourceRuns {
  import opened Bytes
  import opened PacketQueue
  import opened ReportMarks
  import opened SourceStats
  import opened SourceData
  import opened SourceTable

  datatype Event =
    | RtpCame(packet: Incoming, rtpFrom: Sender)
    | RtcpCame(ssrc: uint32, message: Message, rtcpFrom: Sender)
    | OwnSsrcCreated(own: uint32)
    | OwnSsrcDeleted
    | OwnPacketSent(now: Time)
    | PacketTaken(source: uint32)
    | PassMade(pass: Pass)
    | ReportsMade(last: Last, count: nat)
    | FlagsCleared
    | TableCleared

  predicate EventReadable(ev: Event) {
    ev.RtcpCame? ==> Readable(ev.message)
  }

  /** The application takes the first packet from the queue of a source. */
  function Taken(t: Table, ssrc: uint32): Table {
    var i := Index(t.entries, ssrc);
    if i < |t.entries| && t.entries[i].validated && t.entries[i].queue != [] then
      Changed(t, i, t.entries[i].(queue := t.entries[i].queue[1..]))
    else t
  }

  ghost function Step(t: Table, ev: Event): Table
    requires ItemsReady(t.entries) && EventReadable(ev)
  {
    match ev
    case RtpCame(p, from) => AfterRtp(t, p, from)
    case RtcpCame(ssrc, m, from) => AfterRtcp(t, ssrc, m, from)
    case OwnSsrcCreated(ssrc) => OwnCreated(t, ssrc)
    case OwnSsrcDeleted => OwnDeleted(t)
    case OwnPacketSent(now) => OwnSent(t, now)
    case PacketTaken(ssrc) => Taken(t, ssrc)
    case PassMade(p) => Swept(t, p)
    case ReportsMade(last, count) => t.(entries := Marked(last, t.entries, count))
    case FlagsCleared => t.(entries := Cleared(t.entries))
    case TableCleared => Recounted([], t.probation)
  }

  // ---------------------------------------------------------------- what every table keeps

  ghost predicate SsrcsDistinct(es: seq<Entry>) {
    forall i, j | 0 <= i < j < |es| :: es[i].ssrc != es[j].ssrc
  }

  ghost predicate OneOwn(es: seq<Entry>) {
    forall i, j | 0 <= i < j < |es| :: !(es[i].own && es[j].own)
  }

  ghost predicate AllSound(es: seq<Entry>) {
    forall i | 0 <= i < |es| :: Sound(es[i])
  }

  /** The cached counts: two equal a recount, the third is behind by the silent activations. */
  ghost predicate CountsAgree(t: Table) {
    && t.total == |t.entries|
    && t.senders == CountSenders(t.entries)
    && t.active + t.silent == CountActive(t.entries)
    && t.silent >= 0
  }

  ghost predicate TableOk(t: Table) {
    && SsrcsDistinct(t.entries) && OneOwn(t.entries) && AllSound(t.entries)
    && CountsAgree(t)
  }

  lemma DistinctSources(t: Table)
    requires TableOk(t)
    ensures SsrcsDistinct(t.entries)
  {
  }

  lemma IndexAt(es: seq<Entry>, i: nat)
    requires SsrcsDistinct(es) && i < |es|
    ensures Index(es, es[i].ssrc) == i
  {
  }

  lemma {:induction false} CountsAppend(es: seq<Entry>, e: Entry)
    ensures CountSenders(es + [e]) == CountSenders(es) + Bit(e.sender)
    ensures CountActive(es + [e]) == CountActive(es) + Bit(IsActive(e))
  {
    if es == [] {
      assert es + [e] == [e];
      assert [e][1..] == [];
    } else {
      assert (es + [e])[1..] == es[1..] + [e];
      CountsAppend(es[1..], e);
    }
  }

  lemma {:induction false} CountsChange(es: seq<Entry>, i: nat, e: Entry)
    requires i < |es|
    ensures CountSenders(es[i := e]) == CountSenders(es) + Bit(e.sender) - Bit(es[i].sender)
    ensures CountActive(es[i := e]) == CountActive(es) + Bit(IsActive(e)) - Bit(IsActive(es[i]))
  {
    if i == 0 {
      assert es[i := e][1..] == es[1..];
    } else {
      assert es[i := e][1..] == es[1..][i - 1 := e];
      CountsChange(es[1..], i - 1, e);
    }
  }

  lemma {:induction false} CountsRemove(es: seq<Entry>, i: nat)
    requires i < |es|
    ensures CountSenders(es[..i] + es[i + 1..]) == CountSenders(es) - Bit(es[i].sender)
    ensures CountActive(es[..i] + es[i + 1..]) == CountActive(es) - Bit(IsActive(es[i]))
  {
    if i == 0 {
      assert es[..i] + es[i + 1..] == es[1..];
    } else {
      assert (es[..i] + es[i + 1..])[1..] == es[1..][..i - 1] + es[1..][i..];
      CountsRemove(es[1..], i - 1);
    }
  }

  lemma AddedOk(t: Table, e: Entry)
    requires TableOk(t) && Sound(e) && !Has(t, e.ssrc) && (e.own ==> OwnIndex(t.entries) == |t.entries|)
    ensures TableOk(Added(t, e))
  {
    CountsAppend(t.entries, e);
    hide Sound, CountSenders, CountActive, Index, OwnIndex, IsActive;
  }

  lemma ChangedOk(t: Table, i: nat, e: Entry)
    requires TableOk(t) && i < |t.entries| && Sound(e)
    requires e.ssrc == t.entries[i].ssrc && e.own == t.entries[i].own
    ensures TableOk(Changed(t, i, e))
  {
    CountsChange(t.entries, i, e);
    hide Sound, CountSenders, CountActive, IsActive;
  }

  lemma RemovedOk(t: Table, i: nat)
    requires TableOk(t) && i < |t.entries|
    ensures TableOk(Removed(t, i))
  {
    CountsRemove(t.entries, i);
    hide Sound, CountSenders, CountActive, IsActive;
  }

  lemma NewEntrySound(ssrc: uint32, probation: ProbationType)
    ensures Sound(NewEntry(ssrc, probation))
    ensures Sound(AsCsrc(NewEntry(ssrc, probation))) && Sound(OwnEntry(ssrc, probation))
  {
  }

  /** A packet that does not collide leaves a sound entry of the same source. */
  lemma AddressedSound(e: Entry, from: Sender, isRtp: bool)
    requires Sound(e)
    requires !Collides(if isRtp then e.rtp else e.rtcp, if isRtp then e.rtcp else e.rtp, from)
    ensures Sound(Addressed(e, from, isRtp))
  {
  }

  lemma ObtainedOk(t: Table, ssrc: uint32)
    requires TableOk(t)
    ensures TableOk(Obtained(t, ssrc))
    ensures Index(t.entries, ssrc) < |Obtained(t, ssrc).entries|
    ensures Obtained(t, ssrc).entries[Index(t.entries, ssrc)].ssrc == ssrc
  {
    NewEntrySound(ssrc, t.probation);
    if !Has(t, ssrc) {
      AddedOk(t, NewEntry(ssrc, t.probation));
    }
  }

  /** The entry found or made is sound. */
  lemma ObtainedEntry(t: Table, ssrc: uint32)
    requires TableOk(t)
    ensures Index(t.entries, ssrc) < |Obtained(t, ssrc).entries|
    ensures
      var e := Obtained(t, ssrc).entries[Index(t.entries, ssrc)];
      Sound(e) && e.ssrc == ssrc && |e.items| == NUMITEMS
  {
    hide Sound, CountSenders, CountActive, SsrcsDistinct, OneOwn, Obtained, Index;
    ObtainedOk(t, ssrc);
    SoundItems(Obtained(t, ssrc).entries[Index(t.entries, ssrc)]);
  }

  lemma WithCsrcOk(t: Table, csrc: uint32, from: Sender)
    requires TableOk(t)
    ensures TableOk(WithCsrc(t, csrc, from))
  {
    var i := Index(t.entries, csrc);
    if i == |t.entries| {
      NewEntrySound(csrc, t.probation);
      AddedOk(t, AsCsrc(NewEntry(csrc, t.probation)));
    } else if !Collides(t.entries[i].rtp, t.entries[i].rtcp, from) {
      AddressedSound(t.entries[i], from, true);
      var f := AsCsrc(Addressed(t.entries[i], from, true));
      assert Sound(f);
      CountsChange(t.entries, i, f);
      hide Sound, CountSenders, CountActive, Collides;
      assert f.ssrc == t.entries[i].ssrc && f.own == t.entries[i].own && f.sender == t.entries[i].sender;
    }
  }

  lemma {:induction false} WithCsrcsOk(t: Table, csrcs: seq<uint32>, from: Sender)
    requires TableOk(t)
    ensures TableOk(WithCsrcs(t, csrcs, from))
  {
    hide TableOk;
    if csrcs != [] {
      WithCsrcsOk(t, csrcs[..|csrcs| - 1], from);
      WithCsrcOk(WithCsrcs(t, csrcs[..|csrcs| - 1], from), csrcs[|csrcs| - 1], from);
    }
  }

  lemma WithRtpKeeps(e: Entry, p: Incoming, from: Sender)
    requires Sound(e) && !Collides(e.rtp, e.rtcp, from)
    ensures
      var f := WithRtp(e, p, from);
      Sound(f) && f.ssrc == e.ssrc && f.own == e.own && f.bye == e.bye && f.rtcp == e.rtcp && f.rtp == Set(from)
    ensures (e.sender ==> WithRtp(e, p, from).sender) && (e.validated ==> WithRtp(e, p, from).validated)
  {
    AddressedSound(e, from, true);
    WithPacketSound(Addressed(e, from, true), p.arrival, p.data);
    hide Sound, Process, Enqueue;
  }

  lemma AfterRtpOk(t: Table, p: Incoming, from: Sender)
    requires TableOk(t)
    ensures TableOk(AfterRtp(t, p, from))
  {
    var i, u := Index(t.entries, p.ssrc), Obtained(t, p.ssrc);
    ObtainedOk(t, p.ssrc);
    assert Sound(u.entries[i]);
    hide TableOk, Sound, WithRtp, Collides;
    if !Collides(u.entries[i].rtp, u.entries[i].rtcp, from) {
      WithRtpKeeps(u.entries[i], p, from);
      var f := WithRtp(u.entries[i], p, from);
      ChangedOk(u, i, f);
      WithCsrcsOk(Changed(u, i, f), p.csrcs, from);
    }
  }

  lemma WithMessageKeeps(e: Entry, m: Message, from: Sender)
    requires Sound(e) && Readable(m) && !Collides(e.rtcp, e.rtp, from)
    ensures
      var f := WithMessage(Addressed(e, from, false), m);
      Sound(f) && f.ssrc == e.ssrc && f.own == e.own && f.rtp == e.rtp && f.rtcp == Set(from) && f.sender == e.sender
  {
    AddressedSound(e, from, false);
    hide Increasing, Collides, SameOrigin;
  }

  lemma ItemsReadyIfOk(t: Table)
    requires TableOk(t)
    ensures ItemsReady(t.entries)
  {
  }

  lemma TakenOk(t: Table, ssrc: uint32)
    requires TableOk(t)
    ensures TableOk(Taken(t, ssrc))
  {
    var i := Index(t.entries, ssrc);
    if i < |t.entries| && t.entries[i].validated && t.entries[i].queue != [] {
      var e := t.entries[i];
      assert Sound(e.(queue := e.queue[1..]));
      ChangedOk(t, i, e.(queue := e.queue[1..]));
    }
  }

  lemma AfterRtcpOk(t: Table, ssrc: uint32, m: Message, from: Sender)
    requires TableOk(t) && Readable(m) && ItemsReady(t.entries)
    ensures TableOk(AfterRtcp(t, ssrc, m, from))
  {
    var i, u := Index(t.entries, ssrc), Obtained(t, ssrc);
    ObtainedOk(t, ssrc);
    assert Sound(u.entries[i]);
    hide TableOk, Collides;
    if !Collides(u.entries[i].rtcp, u.entries[i].rtp, from) {
      WithMessageKeeps(u.entries[i], m, from);
      hide WithMessage, Sound;
      ChangedOk(u, i, WithMessage(Addressed(u.entries[i], from, false), m));
    }
  }

  lemma AfterSound(p: Pass, e: Entry)
    requires Sound(e)
    ensures After(p, e).Some? ==> Sound(After(p, e).value)
    ensures After(p, e).Some? ==> After(p, e).value.ssrc == e.ssrc && After(p, e).value.own == e.own
    ensures e.own ==> After(p, e).Some?
  {
    hide Increasing, SameOrigin, NoteTimedOut, SenderTimedOut, NoteCleared, Sound;
    SoundItems(e);
    ClearedSound(e);
    ClearedSound(NoteCleared(e));
  }

  lemma SoundItems(e: Entry)
    requires Sound(e)
    ensures |e.items| == NUMITEMS
  {
  }

  /** Clearing the note or the sender mark. */
  lemma ClearedSound(e: Entry)
    requires |e.items| == NUMITEMS
    ensures Sound(e) ==> Sound(NoteCleared(e)) && Sound(e.(sender := false))
    ensures |NoteCleared(e).items| == NUMITEMS && NoteCleared(e).ssrc == e.ssrc && NoteCleared(e).own == e.own
  {
    hide Increasing, SameOrigin;
  }

  ghost predicate Among(es: seq<Entry>, e: Entry) {
    exists i :: 0 <= i < |es| && es[i].ssrc == e.ssrc && es[i].own == e.own
  }

  /** A pass leaves sound entries, each of a source that was there, in an order without repetition. */
  lemma {:induction false} SurvivorsOk(p: Pass, es: seq<Entry>)
    requires SsrcsDistinct(es) && OneOwn(es) && AllSound(es) && ItemsReady(es)
    ensures var r := Survivors(p, es);
      SsrcsDistinct(r) && OneOwn(r) && AllSound(r) && forall i | 0 <= i < |r| :: Among(es, r[i])
  {
    if es != [] {
      var init, e := es[..|es| - 1], es[|es| - 1];
      SurvivorsOk(p, init);
      AfterSound(p, e);
      hide Sound, After, Survivors;
      var r := Survivors(p, init);
      assert Survivors(p, es) == if After(p, e) == None then r else r + [After(p, e).value] by {
        assert es == init + [e];
        SurvivorsOfLast(p, init, e);
        assert r + [] == r;
      }
      assert es[|es| - 1] == e;
      forall i | 0 <= i < |r|
        ensures Among(es, r[i]) && r[i].ssrc != e.ssrc && !(r[i].own && e.own)
      {
        assert Among(init, r[i]);
        var j :| 0 <= j < |init| && init[j].ssrc == r[i].ssrc && init[j].own == r[i].own;
        assert init[j] == es[j];
      }
      if After(p, e).Some? {
        assert Among(es, After(p, e).value);
      }
    }
  }

  lemma SweptOk(t: Table, p: Pass)
    requires TableOk(t) && ItemsReady(t.entries)
    ensures TableOk(Swept(t, p)) && Swept(t, p).silent == 0
  {
    SurvivorsOk(p, t.entries);
  }

  lemma OwnOk(t: Table, ssrc: uint32, now: Time)
    requires TableOk(t)
    ensures TableOk(OwnCreated(t, ssrc)) && TableOk(OwnDeleted(t)) && TableOk(OwnSent(t, now))
  {
    hide CountsAgree, SsrcsDistinct, OneOwn;
    NewEntrySound(ssrc, t.probation);
    if OwnIndex(t.entries) == |t.entries| {
      if !Has(t, ssrc) {
        AddedOk(t, OwnEntry(ssrc, t.probation));
      }
    } else {
      var i := OwnIndex(t.entries);
      RemovedOk(t, i);
      assert Sound(t.entries[i]);
      assert Sound(Sent(t.entries[i], now));
      ChangedOk(t, i, Sent(t.entries[i], now));
    }
  }

  // ---------------------------------------------------------------- report passes keep the table

  lemma ReportedSound(e: Entry)
    requires Sound(e)
    ensures Sound(Reported(e)) && IsActive(Reported(e)) == IsActive(e)
    ensures forall b :: Sound(e.(processed := b)) && IsActive(e.(processed := b)) == IsActive(e)
  {
    hide Increasing, SameOrigin;
  }

  /** Entries that differ only in what a report pass touches. */
  ghost predicate SameButReports(es: seq<Entry>, fs: seq<Entry>) {
    |es| == |fs| && forall i | 0 <= i < |es| ::
      fs[i] == es[i] || fs[i] == Reported(es[i]) || fs[i] == es[i].(processed := false)
  }

  lemma {:induction false} SameCounts(es: seq<Entry>, fs: seq<Entry>)
    requires SameButReports(es, fs)
    ensures CountSenders(fs) == CountSenders(es) && CountActive(fs) == CountActive(es)
  {
    if es != [] {
      SameCounts(es[1..], fs[1..]);
    }
  }

  /** A report pass, whole or in part, keeps everything a source table keeps. */
  lemma ReportsKeepTable(t: Table, fs: seq<Entry>)
    requires TableOk(t) && SameButReports(t.entries, fs)
    ensures TableOk(t.(entries := fs))
  {
    SameCounts(t.entries, fs);
    forall i | 0 <= i < |fs|
      ensures Sound(fs[i]) && fs[i].ssrc == t.entries[i].ssrc && fs[i].own == t.entries[i].own
    {
      ReportedSound(t.entries[i]);
    }
    hide Sound, CountSenders, CountActive, Reported;
  }

  lemma OnlyReportsChange(l: Last, es: seq<Entry>, n: nat)
    ensures SameButReports(es, Marked(l, es, n)) && SameButReports(es, Cleared(es))
  {
    hide Reported, PendingOf, Pending;
  }

  lemma ReportsOk(t: Table, last: Last, count: nat)
    requires TableOk(t)
    ensures TableOk(t.(entries := Marked(last, t.entries, count))) && TableOk(t.(entries := Cleared(t.entries)))
  {
    hide TableOk, SameButReports, Marked, Cleared;
    OnlyReportsChange(last, t.entries, count);
    ReportsKeepTable(t, Marked(last, t.entries, count));
    ReportsKeepTable(t, Cleared(t.entries));
  }

  /** Every operation keeps the table: distinct sources, at most one of our own, sound entries, and
      counts that agree with a recount up to the silent activations. */
  lemma StepOk(t: Table, ev: Event)
    requires TableOk(t) && ItemsReady(t.entries) && EventReadable(ev)
    ensures TableOk(Step(t, ev)) && ItemsReady(Step(t, ev).entries)
    ensures ev.PassMade? || ev.TableCleared? ==> Step(t, ev).silent == 0
  {
    match ev {
      case RtpCame(p, from) => AfterRtpOk(t, p, from);
      case RtcpCame(ssrc, m, from) => AfterRtcpOk(t, ssrc, m, from);
      case OwnSsrcCreated(ssrc) => OwnOk(t, ssrc, 0.0);
      case OwnSsrcDeleted => OwnOk(t, 0, 0.0);
      case OwnPacketSent(now) => OwnOk(t, 0, now);
      case PacketTaken(ssrc) => TakenOk(t, ssrc);
      case PassMade(p) => SweptOk(t, p);
      case ReportsMade(last, count) => ReportsOk(t, last, count);
      case FlagsCleared => ReportsOk(t, Last(true, 0.0), 0);
      case TableCleared =>
    }
    ItemsReadyIfOk(Step(t, ev));
  }

  // ---------------------------------------------------------------- whole runs

  ghost predicate AllReadable(evs: seq<Event>) {
    forall i | 0 <= i < |evs| :: EventReadable(evs[i])
  }

  function Empty(probation: ProbationType): Table {
    Table([], 0, 0, 0, 0, probation)
  }

  /** The table a run leaves, starting from the empty one. */
  ghost function Run(probation: ProbationType, evs: seq<Event>): (t: Table)
    requires AllReadable(evs)
    ensures TableOk(t) && ItemsReady(t.entries)
  {
    if evs == [] then Empty(probation)
    else
      var t := Run(probation, evs[..|evs| - 1]);
      StepOk(t, evs[|evs| - 1]);
      Step(t, evs[|evs| - 1])
  }

  /** In every reachable table two counts equal a recount, and the third equals it exactly when no
      entry was silently activated since the counts were last recomputed. */
  lemma CountsInEveryRun(probation: ProbationType, evs: seq<Event>)
    requires AllReadable(evs)
    ensures var t := Run(probation, evs);
      && t.total == |t.entries| && t.senders == CountSenders(t.entries)
      && t.active == CountActive(t.entries) - t.silent && t.silent >= 0
      && (evs != [] && evs[|evs| - 1].PassMade? ==> t.active == CountActive(t.entries))
  {
    hide Step, CountSenders, CountActive, AllSound, SsrcsDistinct, OneOwn;
    if evs != [] {
      var t := Run(probation, evs[..|evs| - 1]);
      StepOk(t, evs[|evs| - 1]);
    }
  }

  /** Exactly which contributing sources are activated silently: those with an entry that is neither
      validated nor gone and that the address rules let through. */
  lemma SilentExactly(t: Table, csrc: uint32, from: Sender)
    requires TableOk(t)
    ensures
      var u, i := WithCsrc(t, csrc, from), Index(t.entries, csrc);
      var silently := i < |t.entries| && !t.entries[i].validated && !t.entries[i].bye
                      && !Collides(t.entries[i].rtp, t.entries[i].rtcp, from);
      && u.silent == t.silent + Bit(silently)
      && CountActive(u.entries) - u.active == CountActive(t.entries) - t.active + Bit(silently)
  {
    WithCsrcOk(t, csrc, from);
  }

  lemma EmptyRun(probation: ProbationType)
    ensures Run(probation, []) == Empty(probation)
  {
  }

  lemma RunStep(probation: ProbationType, evs: seq<Event>)
    requires AllReadable(evs) && evs != []
    ensures AllReadable(evs[..|evs| - 1]) && EventReadable(evs[|evs| - 1])
    ensures Run(probation, evs) == Step(Run(probation, evs[..|evs| - 1]), evs[|evs| - 1])
  {
    hide Step, TableOk;
  }

  lemma StepSilent(t: Table, ev: Event)
    requires ItemsReady(t.entries) && EventReadable(ev) && (ev.RtpCame? ==> ev.packet.csrcs == [])
    ensures Step(t, ev).silent == t.silent || Step(t, ev).silent == 0
  {
    hide WithRtp, WithMessage, Collides, Index, OwnIndex, CountActive, CountSenders, Survivors, Marked, Cleared,
      IsActive, Addressed, NewEntry, Sent;
  }

  lemma {:induction false} NoSilenceWithoutCsrcs(probation: ProbationType, evs: seq<Event>)
    requires AllReadable(evs)
    requires forall i | 0 <= i < |evs| :: evs[i].RtpCame? ==> evs[i].packet.csrcs == []
    ensures var t := Run(probation, evs);
      t.silent == 0 && t.active == CountActive(t.entries)
  {
    hide Run, Step, CountActive, TableOk, ItemsReady;
    CountsInEveryRun(probation, evs);
    if evs == [] {
      EmptyRun(probation);
    } else {
      var front, last := evs[..|evs| - 1], evs[|evs| - 1];
      NoSilenceWithoutCsrcs(probation, front);
      RunStep(probation, evs);
      StepSilent(Run(probation, front), last);
    }
  }
}
