/** What an entry of the source table keeps while it lives, and who may change it. */
module SourceAddresses {
  import opened Bytes
  import opened ReportMarks
  import opened SourceStats
  import opened SourceData
  import opened SourceTable
  import opened SourceRuns

  /** Where a packet comes from, without the port. */
  datatype Origin = Ourselves | Ip(ip: uint32) | Bytes(host: seq<byte>) | Connection(socket: int)

  function OriginOf(a: Sender): Origin {
    match a
    case None => Ourselves
    case Some(IPv4Address(ip, _)) => Ip(ip)
    case Some(ByteAddress(host, _)) => Bytes(host)
    case Some(TCPAddress(socket)) => Connection(socket)
  }

  /** A packet collides exactly if the address its kind of packet came from before is another one; or, if
      none did, the address of the other kind of packet is of another origin. */
  lemma CollidesExactly(own: Known, other: Known, from: Sender)
    ensures
      Collides(own, other, from) <==>
        match own
        case Set(a) => a != from
        case Unset => other.Set? && OriginOf(other.from) != OriginOf(from)
  {
  }

  predicate Sticks(a: Known, b: Known) {
    a.Set? ==> b == a
  }

  ghost predicate ItemSticks(e: Entry, f: Entry, id: nat) {
    1 <= id <= |e.items| == |f.items| && (e.items[id - 1] != [] ==> f.items[id - 1] == e.items[id - 1])
  }

  /** `f` is `e` at a later time: addresses once known stay, and so do four of the SDES items; a
      source is never un-validated and a BYE is never taken back. */
  ghost predicate Keeps(e: Entry, f: Entry) {
    && f.ssrc == e.ssrc && f.own == e.own
    && Sticks(e.rtp, f.rtp) && Sticks(e.rtcp, f.rtcp)
    && (e.validated ==> f.validated) && (e.bye ==> f.bye)
    && ItemSticks(e, f, CNAME) && ItemSticks(e, f, NAME) && ItemSticks(e, f, EMAIL) && ItemSticks(e, f, TOOL)
  }

  /** Every source in both tables has kept what an entry keeps. */
  ghost predicate Lineage(es: seq<Entry>, fs: seq<Entry>) {
    forall i, j | 0 <= i < |es| && 0 <= j < |fs| :: es[i].ssrc == fs[j].ssrc ==> Keeps(es[i], fs[j])
  }

  ghost predicate Grown(es: seq<Entry>, fs: seq<Entry>) {
    |es| <= |fs| && forall i | 0 <= i < |es| :: Keeps(es[i], fs[i])
  }

  ghost predicate Shrunk(es: seq<Entry>, fs: seq<Entry>) {
    forall j | 0 <= j < |fs| :: exists i :: 0 <= i < |es| && Keeps(es[i], fs[j])
  }

  /** The address rules let a packet from `from` reach the entry. */
  predicate LetIn(e: Entry, from: Sender, isRtp: bool) {
    !Collides(if isRtp then e.rtp else e.rtcp, if isRtp then e.rtcp else e.rtp, from)
  }

  /** Entries that changed are ones the packet may reach. */
  ghost predicate OnlyLetIn(es: seq<Entry>, fs: seq<Entry>, from: Sender, isRtp: bool) {
    |es| <= |fs| && forall k | 0 <= k < |es| :: fs[k] == es[k] || LetIn(es[k], from, isRtp)
  }

  lemma LineageOf(es: seq<Entry>, fs: seq<Entry>)
    requires Grown(es, fs) || Shrunk(es, fs)
    requires SsrcsDistinct(es) && SsrcsDistinct(fs)
    ensures Lineage(es, fs)
  {
    forall i, j | 0 <= i < |es| && 0 <= j < |fs| && es[i].ssrc == fs[j].ssrc
      ensures Keeps(es[i], fs[j])
    {
      if Grown(es, fs) {
        assert Keeps(es[i], fs[i]);
      } else {
        var k :| 0 <= k < |es| && Keeps(es[k], fs[j]);
      }
    }
  }

  lemma KeepsSelf(e: Entry)
    requires Sound(e)
    ensures Keeps(e, e)
  {
  }

  lemma KeepsTrans(e: Entry, f: Entry, g: Entry)
    requires Keeps(e, f) && Keeps(f, g)
    ensures Keeps(e, g)
  {
  }

  lemma GrownSelf(t: Table)
    requires TableOk(t)
    ensures Grown(t.entries, t.entries)
  {
    forall i | 0 <= i < |t.entries|
      ensures Keeps(t.entries[i], t.entries[i])
    {
      assert Sound(t.entries[i]);
      KeepsSelf(t.entries[i]);
    }
  }

  lemma GrownTrans(es: seq<Entry>, fs: seq<Entry>, gs: seq<Entry>)
    requires Grown(es, fs) && Grown(fs, gs)
    ensures Grown(es, gs)
  {
    forall i | 0 <= i < |es|
      ensures Keeps(es[i], gs[i])
    {
      KeepsTrans(es[i], fs[i], gs[i]);
    }
  }

  lemma GrownByAdding(t: Table, e: Entry)
    requires TableOk(t)
    ensures Grown(t.entries, Added(t, e).entries)
  {
    GrownSelf(t);
    hide Keeps, TableOk, IsActive;
  }

  lemma GrownByChange(t: Table, i: nat, e: Entry)
    requires TableOk(t) && i < |t.entries| && Keeps(t.entries[i], e)
    ensures Grown(t.entries, t.entries[i := e])
  {
    GrownSelf(t);
    hide Keeps, TableOk, IsActive;
  }

  lemma AddressedKeeps(e: Entry, from: Sender, isRtp: bool)
    requires Sound(e)
    requires !Collides(if isRtp then e.rtp else e.rtcp, if isRtp then e.rtcp else e.rtp, from)
    ensures Keeps(e, Addressed(e, from, isRtp)) && Keeps(e, AsCsrc(Addressed(e, from, isRtp)))
  {
    hide SameOrigin, Process;
  }

  lemma WithRtpKeepsEntry(e: Entry, p: Incoming, from: Sender)
    requires Sound(e) && !Collides(e.rtp, e.rtcp, from)
    ensures Keeps(e, WithRtp(e, p, from))
  {
    AddressedKeeps(e, from, true);
    hide Process, Collides, Sound;
  }

  lemma WithMessageKeepsEntry(e: Entry, m: Message, from: Sender)
    requires Sound(e) && Readable(m) && !Collides(e.rtcp, e.rtp, from)
    ensures Keeps(e, WithMessage(Addressed(e, from, false), m))
  {
    AddressedKeeps(e, from, false);
    hide Collides, SameOrigin;
  }

  lemma WithCsrcGrows(t: Table, csrc: uint32, from: Sender)
    requires TableOk(t)
    ensures Grown(t.entries, WithCsrc(t, csrc, from).entries)
    ensures OnlyLetIn(t.entries, WithCsrc(t, csrc, from).entries, from, true)
  {
    GrownSelf(t);
    var i := Index(t.entries, csrc);
    assert i < |t.entries| ==> Sound(t.entries[i]);
    hide TableOk, Sound, Keeps, NewEntry, IsActive, Addressed, AsCsrc;
    if i == |t.entries| {
      GrownByAdding(t, AsCsrc(NewEntry(csrc, t.probation)));
    } else if !Collides(t.entries[i].rtp, t.entries[i].rtcp, from) {
      AddressedKeeps(t.entries[i], from, true);
      GrownByChange(t, i, AsCsrc(Addressed(t.entries[i], from, true)));
    }
  }

  lemma {:induction false} WithCsrcsGrows(t: Table, csrcs: seq<uint32>, from: Sender)
    requires TableOk(t)
    ensures Grown(t.entries, WithCsrcs(t, csrcs, from).entries)
    ensures OnlyLetIn(t.entries, WithCsrcs(t, csrcs, from).entries, from, true)
  {
    if csrcs == [] {
      GrownSelf(t);
    } else {
      var init := csrcs[..|csrcs| - 1];
      WithCsrcsOk(t, init, from);
      hide TableOk, Keeps, Collides;
      var u := WithCsrcs(t, init, from);
      WithCsrcsGrows(t, init, from);
      WithCsrcGrows(u, csrcs[|csrcs| - 1], from);
      GrownTrans(t.entries, u.entries, WithCsrcs(t, csrcs, from).entries);
    }
  }

  lemma AfterRtpGrows(t: Table, p: Incoming, from: Sender)
    requires TableOk(t)
    ensures Grown(t.entries, AfterRtp(t, p, from).entries)
    ensures OnlyLetIn(t.entries, AfterRtp(t, p, from).entries, from, true)
  {
    hide TableOk, Keeps, Sound, WithRtp, NewEntry, IsActive, Collides, Grown, WithCsrcs;
    var i, u := Index(t.entries, p.ssrc), Obtained(t, p.ssrc);
    GrownSelf(t);
    ObtainedEntry(t, p.ssrc);
    ObtainedOk(t, p.ssrc);
    GrownByAdding(t, NewEntry(p.ssrc, t.probation));
    var e := u.entries[i];
    if !Collides(e.rtp, e.rtcp, from) {
      WithRtpKeeps(e, p, from);
      WithRtpKeepsEntry(e, p, from);
      var f := WithRtp(e, p, from);
      var v := Changed(u, i, f);
      ChangedOk(u, i, f);
      GrownByChange(u, i, f);
      GrownTrans(t.entries, u.entries, v.entries);
      WithCsrcsGrows(v, p.csrcs, from);
      GrownTrans(t.entries, v.entries, WithCsrcs(v, p.csrcs, from).entries);
    }
  }

  lemma AfterRtcpGrows(t: Table, ssrc: uint32, m: Message, from: Sender)
    requires TableOk(t) && Readable(m) && ItemsReady(t.entries)
    ensures Grown(t.entries, AfterRtcp(t, ssrc, m, from).entries)
    ensures OnlyLetIn(t.entries, AfterRtcp(t, ssrc, m, from).entries, from, false)
    ensures forall k | 0 <= k < |t.entries| ::
      t.entries[k].ssrc != ssrc ==> AfterRtcp(t, ssrc, m, from).entries[k] == t.entries[k]
  {
    hide TableOk, Keeps, Sound, WithMessage, NewEntry, IsActive, Collides;
    var i, u := Index(t.entries, ssrc), Obtained(t, ssrc);
    GrownSelf(t);
    ObtainedOk(t, ssrc);
    ObtainedEntry(t, ssrc);
    GrownByAdding(t, NewEntry(ssrc, t.probation));
    var e := u.entries[i];
    if !Collides(e.rtcp, e.rtp, from) {
      WithMessageKeepsEntry(e, m, from);
      var f := WithMessage(Addressed(e, from, false), m);
      GrownByChange(u, i, f);
      GrownTrans(t.entries, u.entries, Changed(u, i, f).entries);
    }
  }

  /** Packets from elsewhere never touch an entry: whatever an RTP or RTCP packet changes, the packet
      came from an address that does not collide with what the entry knew before. */
  lemma ForeignPacketsIgnored(t: Table, p: Incoming, ssrc: uint32, m: Message, from: Sender, k: nat)
    requires TableOk(t) && ItemsReady(t.entries) && Readable(m) && k < |t.entries|
    ensures |AfterRtp(t, p, from).entries| > k && |AfterRtcp(t, ssrc, m, from).entries| > k
    ensures Collides(t.entries[k].rtp, t.entries[k].rtcp, from) ==> AfterRtp(t, p, from).entries[k] == t.entries[k]
    ensures Collides(t.entries[k].rtcp, t.entries[k].rtp, from) ==>
      AfterRtcp(t, ssrc, m, from).entries[k] == t.entries[k]
    ensures t.entries[k].ssrc == p.ssrc && Collides(t.entries[k].rtp, t.entries[k].rtcp, from) ==>
      AfterRtp(t, p, from) == t
  {
    AfterRtpGrows(t, p, from);
    AfterRtcpGrows(t, ssrc, m, from);
    hide Keeps, Collides;
    if t.entries[k].ssrc == p.ssrc {
      assert Index(t.entries, p.ssrc) == k;
    }
  }

  lemma OwnGrows(t: Table, ssrc: uint32, now: Time)
    requires TableOk(t)
    ensures Grown(t.entries, OwnCreated(t, ssrc).entries)
    ensures Grown(t.entries, OwnSent(t, now).entries)
  {
    GrownSelf(t);
    GrownByAdding(t, OwnEntry(ssrc, t.probation));
    var i := OwnIndex(t.entries);
    assert i < |t.entries| ==> Sound(t.entries[i]) && Keeps(t.entries[i], Sent(t.entries[i], now));
    hide TableOk, Keeps, Sound, Sent, OwnEntry, IsActive;
    if i < |t.entries| {
      GrownByChange(t, i, Sent(t.entries[i], now));
    }
  }

  lemma TakenGrows(t: Table, ssrc: uint32)
    requires TableOk(t)
    ensures Grown(t.entries, Taken(t, ssrc).entries)
  {
    GrownSelf(t);
    var i := Index(t.entries, ssrc);
    if i < |t.entries| && t.entries[i].validated && t.entries[i].queue != [] {
      var e := t.entries[i];
      assert Sound(e);
      assert Keeps(e, e.(queue := e.queue[1..]));
      hide TableOk, Keeps, Sound, IsActive;
      GrownByChange(t, i, e.(queue := e.queue[1..]));
    }
  }

  lemma RemovedShrinks(t: Table)
    requires TableOk(t)
    ensures Shrunk(t.entries, OwnDeleted(t).entries)
  {
    GrownSelf(t);
    hide TableOk, Keeps, IsActive;
    var i, fs := OwnIndex(t.entries), OwnDeleted(t).entries;
    forall j | 0 <= j < |fs|
      ensures exists k :: 0 <= k < |t.entries| && Keeps(t.entries[k], fs[j])
    {
      var k := if j < i then j else j + 1;
      assert Keeps(t.entries[k], fs[j]);
    }
  }

  lemma AfterKeeps(p: Pass, e: Entry)
    requires Sound(e) && After(p, e).Some?
    ensures Keeps(e, After(p, e).value)
  {
    KeepsSelf(e);
    var f := NoteCleared(e);
    assert Keeps(e, f) && Keeps(e, e.(sender := false)) && Keeps(e, f.(sender := false));
    hide Keeps, Sound, NoteCleared, NoteTimedOut, ByeTimedOut, TimedOut, SenderTimedOut;
  }

  lemma {:induction false} SurvivorsShrunk(p: Pass, es: seq<Entry>)
    requires AllSound(es) && ItemsReady(es)
    ensures Shrunk(es, Survivors(p, es))
  {
    if es != [] {
      var init, e := es[..|es| - 1], es[|es| - 1];
      SurvivorsShrunk(p, init);
      assert Sound(e);
      if After(p, e).Some? {
        AfterKeeps(p, e);
      }
      hide Keeps, Sound, After;
      var r, s := Survivors(p, init), Survivors(p, es);
      forall j | 0 <= j < |s|
        ensures exists i :: 0 <= i < |es| && Keeps(es[i], s[j])
      {
        if j < |r| {
          var i :| 0 <= i < |init| && Keeps(init[i], r[j]);
          assert Keeps(es[i], s[j]);
        } else {
          assert Keeps(es[|es| - 1], s[j]);
        }
      }
    }
  }

  lemma ReportsGrow(t: Table, last: Last, count: nat)
    requires TableOk(t)
    ensures Grown(t.entries, Marked(last, t.entries, count)) && Grown(t.entries, Cleared(t.entries))
  {
    hide TableOk, Keeps, Pending, PendingOf, Reported;
    GrownSelf(t);
    forall i | 0 <= i < |t.entries|
      ensures Keeps(t.entries[i], Reported(t.entries[i])) && Keeps(t.entries[i], t.entries[i].(processed := false))
    {
      FlagKeeps(t.entries[i]);
    }
  }

  lemma FlagKeeps(e: Entry)
    requires Keeps(e, e)
    ensures Keeps(e, Reported(e)) && Keeps(e, e.(processed := false))
  {
  }

  /** One operation of any kind: the sources that stay have kept what an entry keeps. */
  lemma StepLineage(t: Table, ev: Event)
    requires TableOk(t) && ItemsReady(t.entries) && EventReadable(ev)
    ensures Lineage(t.entries, Step(t, ev).entries)
  {
    StepOk(t, ev);
    match ev {
      case RtpCame(p, from) => AfterRtpGrows(t, p, from);
      case RtcpCame(ssrc, m, from) => AfterRtcpGrows(t, ssrc, m, from);
      case OwnSsrcCreated(ssrc) => OwnGrows(t, ssrc, 0.0);
      case OwnSsrcDeleted => RemovedShrinks(t);
      case OwnPacketSent(now) => OwnGrows(t, 0, now);
      case PacketTaken(ssrc) => TakenGrows(t, ssrc);
      case PassMade(p) => SurvivorsShrunk(p, t.entries);
      case ReportsMade(last, count) => ReportsGrow(t, last, count);
      case FlagsCleared => ReportsGrow(t, Last(true, 0.0), 0);
      case TableCleared =>
    }
    hide Keeps, AllSound, CountsAgree, OneOwn, Grown, Shrunk, AfterRtp, AfterRtcp, OwnCreated, OwnDeleted, OwnSent,
      Taken, Survivors;
    assert Grown(t.entries, Step(t, ev).entries) || Shrunk(t.entries, Step(t, ev).entries) by {
      if ev.TableCleared? {
        NothingLeft(t.entries);
      }
    }
    LineageOf(t.entries, Step(t, ev).entries);
  }

  // ---------------------------------------------------------------- our own entry

  /** Packets never make an entry our own, and never take that back. */
  ghost predicate OwnSame(es: seq<Entry>, fs: seq<Entry>) {
    && |es| <= |fs|
    && (forall k | 0 <= k < |es| :: fs[k].own == es[k].own)
    && (forall k | |es| <= k < |fs| :: !fs[k].own)
  }

  lemma OwnIndexSame(es: seq<Entry>, fs: seq<Entry>)
    requires OwnSame(es, fs)
    ensures OwnIndex(fs) == if OwnIndex(es) < |es| then OwnIndex(es) else |fs|
  {
    var i, j := OwnIndex(es), OwnIndex(fs);
    assert i < |es| ==> es[i].own && fs[i].own;
    assert j < |fs| ==> fs[j].own;
  }

  lemma OwnIndexUnique(es: seq<Entry>, i: nat)
    requires OneOwn(es) && i < |es| && es[i].own
    ensures OwnIndex(es) == i
  {
    assert OwnIndex(es) <= i;
  }

  lemma WithCsrcOwnSame(t: Table, csrc: uint32, from: Sender)
    ensures OwnSame(t.entries, WithCsrc(t, csrc, from).entries)
  {
    hide Collides, IsActive;
  }

  lemma {:induction false} WithCsrcsOwnSame(t: Table, csrcs: seq<uint32>, from: Sender)
    ensures OwnSame(t.entries, WithCsrcs(t, csrcs, from).entries)
  {
    if csrcs != [] {
      WithCsrcsOwnSame(t, csrcs[..|csrcs| - 1], from);
      WithCsrcOwnSame(WithCsrcs(t, csrcs[..|csrcs| - 1], from), csrcs[|csrcs| - 1], from);
    }
  }

  lemma AfterRtpOwnSame(t: Table, p: Incoming, from: Sender)
    requires TableOk(t)
    ensures OwnSame(t.entries, AfterRtp(t, p, from).entries)
  {
    hide TableOk, Sound, Collides, WithRtp, IsActive, WithCsrcs, Index;
    var i, u := Index(t.entries, p.ssrc), Obtained(t, p.ssrc);
    ObtainedEntry(t, p.ssrc);
    var e := u.entries[i];
    if !Collides(e.rtp, e.rtcp, from) {
      WithRtpKeeps(e, p, from);
      WithCsrcsOwnSame(Changed(u, i, WithRtp(e, p, from)), p.csrcs, from);
    }
  }

  lemma AfterRtcpOwnSame(t: Table, ssrc: uint32, m: Message, from: Sender)
    requires TableOk(t) && Readable(m) && ItemsReady(t.entries)
    ensures OwnSame(t.entries, AfterRtcp(t, ssrc, m, from).entries)
  {
    hide TableOk, Sound, Collides, WithMessage, IsActive, Index;
    var i, u := Index(t.entries, ssrc), Obtained(t, ssrc);
    ObtainedEntry(t, ssrc);
    var e := u.entries[i];
    if !Collides(e.rtcp, e.rtp, from) {
      WithMessageKeeps(e, m, from);
    }
  }

  lemma NothingLeft(es: seq<Entry>)
    ensures Shrunk(es, [])
  {
  }

  // ---------------------------------------------------------------- whole runs

  ghost function RunFrom(t: Table, evs: seq<Event>): (u: Table)
    requires TableOk(t) && ItemsReady(t.entries) && AllReadable(evs)
    ensures TableOk(u) && ItemsReady(u.entries)
  {
    if evs == [] then t
    else
      var u := RunFrom(t, evs[..|evs| - 1]);
      StepOk(u, evs[|evs| - 1]);
      Step(u, evs[|evs| - 1])
  }

  /** The source is in the table at the start and after every event. */
  ghost predicate LivesThrough(t: Table, evs: seq<Event>, ssrc: uint32)
    requires TableOk(t) && ItemsReady(t.entries) && AllReadable(evs)
  {
    Has(RunFrom(t, evs), ssrc) && (evs != [] ==> LivesThrough(t, evs[..|evs| - 1], ssrc))
  }

  function EntryOf(t: Table, ssrc: uint32): Entry
    requires Has(t, ssrc)
  {
    t.entries[Index(t.entries, ssrc)]
  }

  /** Whatever happens, as long as an entry lives its addresses never change once they are known, and
      the two are of one origin whenever both are known. */
  lemma {:induction false} AddressesForLife(t: Table, evs: seq<Event>, ssrc: uint32)
    requires TableOk(t) && ItemsReady(t.entries) && AllReadable(evs) && LivesThrough(t, evs, ssrc)
    ensures Has(t, ssrc) && Has(RunFrom(t, evs), ssrc)
    ensures
      var e, f := EntryOf(t, ssrc), EntryOf(RunFrom(t, evs), ssrc);
      Keeps(e, f) && (f.rtp.Set? && f.rtcp.Set? ==> SameOrigin(f.rtp.from, f.rtcp.from))
  {
    if evs == [] {
      assert Sound(EntryOf(t, ssrc));
    } else {
      var u, ev := RunFrom(t, evs[..|evs| - 1]), evs[|evs| - 1];
      AddressesForLife(t, evs[..|evs| - 1], ssrc);
      StepOk(u, ev);
      StepLineage(u, ev);
      var e, f, g := EntryOf(t, ssrc), EntryOf(u, ssrc), EntryOf(Step(u, ev), ssrc);
      assert Sound(g);
      hide Keeps, Step, CountsAgree, SsrcsDistinct, OneOwn;
      assert Keeps(f, g);
      KeepsTrans(e, f, g);
    }
  }
}
