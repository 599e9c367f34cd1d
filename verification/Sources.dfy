/** `RTPSources` of rtpsources.{h,cpp}: the hash table of entries and the three cached counts. Every
    method is tied to what it does to the table as a value. */
module Sources {
  import opened Bytes
  import opened KeyHashTable
  import opened PacketQueue
  import opened SourceStats
  import opened SourceData
  import opened SourceTable
  import opened SourceRuns
  import opened SourceAddresses

  const HASHSIZE: nat := 8317

  function GetIndex(ssrc: uint32): int {
    ssrc % HASHSIZE
  }

  /** Entries under their keys, as the hash table holds them. */
  ghost function Keyed(s: seq<RTPInternalSourceData>): (r: seq<(uint32, RTPInternalSourceData)>)
    ensures |r| == |s| && forall i | 0 <= i < |s| :: r[i] == (s[i].ssrc, s[i])
  {
    seq(|s|, i requires 0 <= i < |s| => (s[i].ssrc, s[i]))
  }

  lemma KeyedAppend(s: seq<RTPInternalSourceData>, x: RTPInternalSourceData)
    ensures Keyed(s + [x]) == Keyed(s) + [(x.ssrc, x)]
  {
  }

  lemma KeyedWithout(s: seq<RTPInternalSourceData>, i: nat)
    requires i < |s|
    ensures Keyed(Without(s, i)) == Without(Keyed(s), i)
  {
  }

  ghost function Views(s: seq<RTPInternalSourceData>): (r: seq<Entry>)
    reads s
    ensures |r| == |s|
  {
    if s == [] then [] else [s[0].View()] + Views(s[1..])
  }

  lemma {:induction false} ViewsAt(s: seq<RTPInternalSourceData>, i: nat)
    requires i < |s|
    ensures Views(s)[i] == s[i].View()
  {
    if i > 0 {
      ViewsAt(s[1..], i - 1);
    }
  }

  lemma ViewsAll(s: seq<RTPInternalSourceData>)
    ensures forall i | 0 <= i < |s| :: Views(s)[i] == s[i].View()
  {
    forall i | 0 <= i < |s|
      ensures Views(s)[i] == s[i].View()
    {
      ViewsAt(s, i);
    }
  }

  lemma {:induction false} ViewsAppend(s: seq<RTPInternalSourceData>, x: RTPInternalSourceData)
    ensures Views(s + [x]) == Views(s) + [x.View()]
  {
    if s == [] {
      assert [x][1..] == [];
    } else {
      assert (s + [x])[1..] == s[1..] + [x];
      ViewsAppend(s[1..], x);
    }
  }

  lemma {:induction false} ViewsWithout(s: seq<RTPInternalSourceData>, i: nat)
    requires i < |s|
    ensures Views(Without(s, i)) == Without(Views(s), i)
  {
    if i == 0 {
      assert Without(s, 0) == s[1..];
    } else {
      assert Without(s, i)[1..] == Without(s[1..], i - 1);
      ViewsWithout(s[1..], i - 1);
    }
  }

  twostate lemma {:induction false} ViewsUnchanged(s: seq<RTPInternalSourceData>)
    requires forall j | 0 <= j < |s| :: unchanged(s[j])
    ensures Views(s) == old(Views(s))
  {
    if s != [] {
      assert unchanged(s[0]);
      ViewsUnchanged(s[1..]);
    }
  }

  twostate lemma {:induction false} ViewsAtOld(s: seq<RTPInternalSourceData>, new i: nat)
    requires i < |s|
    ensures old(Views(s))[i] == old(s[i].View())
  {
    if i > 0 {
      ViewsAtOld(s[1..], i - 1);
    }
  }

  twostate lemma {:induction false} ViewsUpdated(s: seq<RTPInternalSourceData>, new i: nat)
    requires i < |s| && forall j | 0 <= j < |s| :: j != i ==> unchanged(s[j])
    ensures Views(s) == old(Views(s))[i := s[i].View()]
  {
    if i == 0 {
      ViewsUnchanged(s[1..]);
    } else {
      assert unchanged(s[0]);
      ViewsUpdated(s[1..], i - 1);
    }
  }

  /** The fate of an entry in a fused pass, with the tests in the order the program makes them. */
  lemma FusedFate(e: Entry, sender: Time, bye: Time, general: Time, note: Time)
    requires |e.items| == NUMITEMS
    ensures
      var f := if e.items[NOTE - 1] != [] && note > e.lastNoteTime then NoteCleared(e) else e;
      After(FusedPass(sender, bye, general, note), e) ==
        if !e.own && ((e.bye && bye > e.byeTime) || e.stats.timing.lastMsgTime < general) then None
        else Some(if e.sender && e.stats.timing.lastRtpTime < sender then f.(sender := false) else f)
    ensures
      var f := NoteCleared(e);
      f.own == e.own && f.bye == e.bye && f.byeTime == e.byeTime && f.stats == e.stats && f.sender == e.sender
  {
  }

  lemma EmptyOk(probation: ProbationType)
    ensures TableOk(Empty(probation))
  {
  }

  lemma AddressedCounts(e: Entry, from: Sender, isRtp: bool)
    ensures Addressed(e, from, isRtp).sender == e.sender && IsActive(Addressed(e, from, isRtp)) == IsActive(e)
    ensures Addressed(e, from, isRtp).own == e.own && Addressed(e, from, isRtp).items == e.items
  {
  }

  lemma ObtainedSound(t: Table, ssrc: uint32)
    requires TableOk(t)
    ensures Index(t.entries, ssrc) < |Obtained(t, ssrc).entries|
    ensures var e := Obtained(t, ssrc).entries[Index(t.entries, ssrc)];
      Sound(e) && |e.items| == NUMITEMS
  {
    ObtainedOk(t, ssrc);
  }

  lemma ObtainedOwnSame(t: Table, ssrc: uint32)
    ensures OwnSame(t.entries, Obtained(t, ssrc).entries)
  {
  }

  /** Storing an address first does not change what the counts gain. */
  lemma ReceivedCounts(u: Table, i: nat, a: Entry, f: Entry, from: Sender, isRtp: bool, v: Table)
    requires i < |u.entries| && a == Addressed(u.entries[i], from, isRtp)
    requires v.entries == u.entries[i := a][i := f]
    requires v.senders == u.senders + Bit(f.sender) - Bit(a.sender)
    requires v.active == u.active + Bit(IsActive(f)) - Bit(IsActive(a))
    requires v.total == u.total && v.silent == u.silent && v.probation == u.probation
    ensures v == Changed(u, i, f)
  {
    assert u.entries[i := a][i := f] == u.entries[i := f];
  }

  lemma MessageCounts(e: Entry, m: Message)
    requires Readable(m) && |e.items| == NUMITEMS
    ensures
      var f := WithMessage(e, m);
      f.sender == e.sender && (!m.Bye? && IsActive(e) ==> IsActive(f)) && (m.Bye? && IsActive(f) ==> IsActive(e))
    ensures m.Alive? ==> IsActive(WithMessage(e, m)) == IsActive(e)
    ensures e.own ==> WithMessage(e, Bye(m.time)) == e
    ensures !e.own ==> WithMessage(e, Bye(m.time)) == SaidBye(e, m.time)
  {
  }

  datatype OwnError = AlreadyHaveOwnSsrc | SsrcExists | DontHaveOwnSsrc

  class RTPSources {
    const sourceList: RTPKeyHashTable<uint32, RTPInternalSourceData>
    const probationType: ProbationType
    var totalCount: int
    var senderCount: int
    var activeCount: int
    var ownData: RTPInternalSourceData?
    /** The entries in the order of the table. */
    ghost var sources: seq<RTPInternalSourceData>
    /** How many of them a CSRC list made active since the counts were last recomputed. */
    ghost var silent: int

    ghost function Entries(): seq<Entry>
      reads this`sources, sources
    {
      Views(sources)
    }

    ghost function View(): Table
      reads this, sources
    {
      Table(Entries(), totalCount, senderCount, activeCount, silent, probationType)
    }

    /** The hash table holds exactly the entries, each under its own source. */
    ghost predicate Linked()
      reads this`sources, sourceList, sourceList.table, sourceList.nodes
    {
      && sourceList.Valid() && sourceList.Contents() == Keyed(sources)
      && sourceList.table.Length == HASHSIZE && forall k: uint32 :: sourceList.hash(k) == GetIndex(k)
    }

    /** `ownData` is the one entry marked as our own. */
    ghost predicate OwnMatches()
      reads this`ownData, this`sources, sources
    {
      var i := OwnIndex(Entries());
      ownData == if i < |sources| then sources[i] else null
    }

    ghost predicate Valid()
      reads this, sourceList, sourceList.table, sourceList.nodes, sources
    {
      Linked() && OwnMatches() && TableOk(View())
    }

    constructor (probation: ProbationType)
      ensures Valid() && View() == Empty(probation)
      ensures fresh(sourceList) && fresh(sourceList.table)
    {
      hide TableOk, Views, OwnIndex;
      sourceList := new RTPKeyHashTable(ssrc => GetIndex(ssrc), HASHSIZE);
      probationType := probation;
      totalCount, senderCount, activeCount, ownData := 0, 0, 0, null;
      sources, silent := [], 0;
      new;
      EmptyOk(probation);
    }

    /** Different places hold different entries. */
    lemma SourcesDistinct()
      requires Linked()
      ensures forall i, j | 0 <= i < j < |sources| :: sources[i].ssrc != sources[j].ssrc
    {
      var list := sourceList.list;
      assert forall i | 0 <= i < |list| :: sourceList.Contents()[i].0 == list[i].key;
    }

    lemma HasIsHas(k: uint32)
      requires Linked()
      ensures sourceList.Has(k) <==> Index(Entries(), k) < |Entries()|
    {
      var list := sourceList.list;
      assert forall i | 0 <= i < |list| :: sourceList.Contents()[i].0 == list[i].key;
      ViewsAll(sources);
      if i :| 0 <= i < |list| && list[i].key == k {
        assert Entries()[i].ssrc == k;
      }
    }

    method GotEntry(ssrc: uint32) returns (got: bool)
      requires Valid()
      ensures got <==> Has(View(), ssrc)
    {
      HasIsHas(ssrc);
      got := sourceList.HasElement(ssrc);
    }

    /** A new entry at the end of the table. */
    method AddSource(ssrc: uint32) returns (srcdat: RTPInternalSourceData)
      requires Linked() && Index(Entries(), ssrc) == |Entries()|
      modifies this`totalCount, this`sources, sourceList, sourceList.table, sourceList.nodes
      ensures Linked() && sources == old(sources) + [srcdat] && fresh(srcdat)
      ensures srcdat.View() == NewEntry(ssrc, probationType) && totalCount == old(totalCount) + 1
      ensures fresh(sourceList.nodes - old(sourceList.nodes))
    {
      hide RTPKeyHashTable.Valid, RTPKeyHashTable.Contents, RTPKeyHashTable.Has, Views, Keyed;
      HasIsHas(ssrc);
      srcdat := new RTPInternalSourceData(ssrc, probationType);
      KeyedAppend(sources, srcdat);
      var added := sourceList.AddElement(ssrc, srcdat);
      totalCount := totalCount + 1;
      sources := sources + [srcdat];
    }

    /** The table kept its entries in place, and what came after them is new. */
    twostate predicate GrewFresh()
      reads this`sources
    {
      && |old(sources)| <= |sources|
      && forall k | 0 <= k < |sources| ::
        if k < |old(sources)| then sources[k] == old(sources)[k] else fresh(sources[k])
    }

    twostate lemma OneAppended(new s: RTPInternalSourceData)
      requires sources == old(sources) + [s]
      requires forall x | x in old(sources) :: unchanged(x)
      ensures Entries() == old(Entries()) + [s.View()]
    {
      forall j | 0 <= j < |old(sources)|
        ensures unchanged(old(sources)[j])
      {
        assert old(sources)[j] in old(sources);
      }
      ViewsUnchanged(old(sources));
      ViewsAppend(old(sources), s);
    }

    /** The entries before and after one of them was changed. */
    twostate lemma OneChanged(new i: nat)
      requires Linked() && sources == old(sources) && i < |sources|
      requires forall x | x in sources :: x != sources[i] ==> unchanged(x)
      ensures Entries() == old(Entries())[i := sources[i].View()]
    {
      SourcesDistinct();
      forall j | 0 <= j < |sources| && j != i
        ensures unchanged(sources[j])
      {
        assert sources[j] in sources && sources[j].ssrc != sources[i].ssrc;
      }
      ViewsUpdated(sources, i);
    }

    /** Finds the entry of a source or makes one at the end of the table. */
    method ObtainSourceDataInstance(ssrc: uint32) returns (srcdat: RTPInternalSourceData, created: bool)
      requires Linked()
      modifies this`totalCount, this`sources, sourceList, sourceList.table, sourceList.nodes
      ensures Linked() && View() == Obtained(old(View()), ssrc)
      ensures created <==> !Has(old(View()), ssrc)
      ensures Index(old(Entries()), ssrc) < |sources| && sources[Index(old(Entries()), ssrc)] == srcdat
      ensures sources == if created then old(sources) + [srcdat] else old(sources)
      ensures created ==> fresh(srcdat)
      ensures fresh(sourceList.nodes - old(sourceList.nodes))
    {
      hide RTPKeyHashTable.Valid, RTPKeyHashTable.Contents, RTPKeyHashTable.Has, Keyed, NewEntry, Views, Obtained;
      ObtainedIs(View(), ssrc);
      HasIsHas(ssrc);
      var status := sourceList.GotoElement(ssrc);
      if status.Failure? {
        assert Linked();
        srcdat := AddSource(ssrc);
        OneAppended(srcdat);
        created := true;
      } else {
        srcdat := sourceList.curHashElem.element;
        created := false;
        CursorAtIndex(ssrc);
        ViewsUnchanged(sources);
      }
    }

    static lemma ObtainedIs(t: Table, ssrc: uint32)
      ensures Obtained(t, ssrc) ==
        if Has(t, ssrc) then t else t.(entries := t.entries + [NewEntry(ssrc, t.probation)], total := t.total + 1)
    {
    }

    lemma CursorAtIndex(ssrc: uint32)
      requires Linked() && sourceList.curHashElem != null && sourceList.InList(sourceList.curHashElem)
      requires sourceList.curHashElem.key == ssrc
      ensures Index(Entries(), ssrc) < |sources| && sources[Index(Entries(), ssrc)] == sourceList.curHashElem.element
    {
      SourcesDistinct();
      ViewsAll(sources);
      hide RTPKeyHashTable.Valid;
      var c := sourceList.curHashElem;
      assert sourceList.Contents()[c.listPos] == (ssrc, c.element);
      assert Entries()[c.listPos].ssrc == ssrc;
    }

    /** Records where a packet for an entry came from, or refuses it. */
    method StoreAddress(srcdat: RTPInternalSourceData, created: bool, from: Sender, isRtp: bool, ghost i: nat)
      returns (collision: bool)
      requires Linked() && i < |sources| && sources[i] == srcdat
      requires created ==> srcdat.rtpAddr == Unset && srcdat.rtcpAddr == Unset
      modifies srcdat`rtpAddr, srcdat`rtcpAddr
      ensures Linked()
      ensures collision == !LetIn(old(Entries())[i], from, isRtp)
      ensures collision ==> View() == old(View())
      ensures !collision ==>
        View() == WithEntry(old(View()), i, Addressed(old(Entries())[i], from, isRtp))
    {
      ViewsAt(sources, i);
      assert created ==> LetIn(srcdat.View(), from, isRtp);
      hide Linked, RTPKeyHashTable.Valid, Keyed, Addressed, Collides;
      if created {
        if isRtp {
          srcdat.SetRTPDataAddress(from);
        } else {
          srcdat.SetRTCPDataAddress(from);
        }
        collision := false;
      } else {
        collision := srcdat.CheckCollision(from, isRtp);
      }
      OneChanged(i);
    }

    /** How the handlers of RTP and RTCP packets begin; `GetRTCPSourceData` for RTCP. The result is null
        if the packet collides. */
    method GetSourceData(ssrc: uint32, from: Sender, isRtp: bool)
      returns (srcdat: RTPInternalSourceData?, created: bool)
      requires Linked()
      modifies this`totalCount, this`sources, sourceList, sourceList.table, sourceList.nodes, sources
      ensures Linked() && fresh(sourceList.nodes - old(sourceList.nodes))
      ensures sources == old(sources) || (srcdat != null && fresh(srcdat) && sources == old(sources) + [srcdat])
      ensures
        var t, i, u := old(View()), Index(old(Entries()), ssrc), Obtained(old(View()), ssrc);
        && (srcdat == null <==> !LetIn(u.entries[i], from, isRtp))
        && (srcdat == null ==> View() == t)
        && (srcdat != null ==> i < |sources| && sources[i] == srcdat)
        && (srcdat != null ==> View() == WithEntry(u, i, Addressed(u.entries[i], from, isRtp)))
    {
      hide Linked, RTPKeyHashTable.Valid, Keyed, Addressed;
      ghost var i := Index(Entries(), ssrc);
      srcdat, created := ObtainSourceDataInstance(ssrc);
      ViewsAt(sources, i);
      var collision := StoreAddress(srcdat, created, from, isRtp, i);
      if collision {
        srcdat := null;
      }
    }

    /** Counts what became of an entry. */
    method CountChange(srcdat: RTPInternalSourceData, prevSender: bool, prevActive: bool)
      requires prevSender ==> srcdat.isSender
      requires prevActive ==> IsActive(srcdat.View())
      modifies this`senderCount, this`activeCount
      ensures Entries() == old(Entries()) && srcdat.View() == old(srcdat.View())
      ensures senderCount == old(senderCount) + Bit(srcdat.View().sender) - Bit(prevSender)
      ensures activeCount == old(activeCount) + Bit(IsActive(srcdat.View())) - Bit(prevActive)
    {
      if !prevSender && srcdat.isSender {
        senderCount := senderCount + 1;
      }
      if !prevActive && srcdat.InUse() {
        activeCount := activeCount + 1;
      }
    }

    /** Hands an RTP packet to the entry of its sender. */
    method HandOver(srcdat: RTPInternalSourceData, p: Incoming, ghost i: nat) returns (stored: bool)
      requires Linked() && i < |sources| && sources[i] == srcdat && Increasing(srcdat.packetList)
      modifies srcdat
      ensures Linked()
      ensures srcdat.View() == WithPacket(old(srcdat.View()), p.arrival, p.data)
      ensures srcdat.View().sender == srcdat.isSender
      ensures Entries() == old(Entries())[i := srcdat.View()]
    {
      hide Linked, RTPKeyHashTable.Valid, Keyed, WithPacket, Increasing, Trim, Views;
      stored := srcdat.ProcessRTPPacket(p.arrival, p.data);
      OneChanged(i);
    }

    /** Hands an RTP packet to the entry of its sender and counts what that changed. */
    method ReceiveRTP(srcdat: RTPInternalSourceData, p: Incoming, ghost i: nat) returns (stored: bool)
      requires Linked() && i < |sources| && sources[i] == srcdat && Sound(srcdat.View())
      modifies srcdat, this`senderCount, this`activeCount
      ensures Linked()
      ensures srcdat.View() == WithPacket(old(srcdat.View()), p.arrival, p.data)
      ensures Entries() == old(Entries())[i := srcdat.View()]
      ensures senderCount == old(senderCount) + Bit(srcdat.View().sender) - Bit(old(srcdat.View()).sender)
      ensures activeCount == old(activeCount) + Bit(IsActive(srcdat.View())) - Bit(IsActive(old(srcdat.View())))
    {
      WithPacketCounts(srcdat.View(), p.arrival, p.data);
      SoundQueue(srcdat.View());
      assert srcdat.View().sender == srcdat.isSender && srcdat.View().queue == srcdat.packetList;
      hide *;
      var prevSender, prevActive := srcdat.isSender, srcdat.InUse();
      stored := HandOver(srcdat, p, i);
      CountChange(srcdat, prevSender, prevActive);
    }

    /** A contributing source that is not in the table yet. */
    method AddCSRC(csrcdat: RTPInternalSourceData, ghost i: nat)
      requires Linked() && i < |sources| && sources[i] == csrcdat && !csrcdat.validated && !csrcdat.receivedBye
      modifies csrcdat, this`activeCount
      ensures Linked() && View() == Changed(old(View()), i, AsCsrc(old(Entries())[i]))
    {
      ViewsAt(sources, i);
      hide Linked, RTPKeyHashTable.Valid, Keyed;
      csrcdat.SetCSRC();
      if csrcdat.InUse() {
        activeCount := activeCount + 1;
      }
      OneChanged(i);
    }

    /** A contributing source that is in the table: it may become active, and is not counted. */
    method MarkCSRC(csrcdat: RTPInternalSourceData, from: Sender, ghost i: nat)
      requires Linked() && i < |sources| && sources[i] == csrcdat
      modifies csrcdat, this`silent
      ensures Linked()
      ensures
        var e := old(csrcdat.View());
        && csrcdat.View() == (if LetIn(e, from, true) then AsCsrc(Addressed(e, from, true)) else e)
        && silent == old(silent) + Bit(IsActive(csrcdat.View())) - Bit(IsActive(e))
      ensures Entries() == old(Entries())[i := csrcdat.View()]
    {
      ViewsAt(sources, i);
      hide Linked, RTPKeyHashTable.Valid, Keyed, Collides, Views;
      var collision := StoreAddress(csrcdat, false, from, true, i);
      if !collision {
        ViewsAt(sources, i);
        silent := silent + Bit(!csrcdat.validated && !csrcdat.receivedBye);
        csrcdat.SetCSRC();
      } else {
        ViewsAt(sources, i);
      }
      OneChanged(i);
    }

    /** One identifier of a CSRC list. */
    method ProcessCSRC(csrc: uint32, from: Sender)
      requires Linked()
      modifies this`totalCount, this`activeCount, this`silent, this`sources,
               sourceList, sourceList.table, sourceList.nodes, sources
      ensures Linked() && View() == WithCsrc(old(View()), csrc, from)
      ensures fresh(sourceList.nodes - old(sourceList.nodes))
      ensures GrewFresh()
    {
      hide Linked, RTPKeyHashTable.Valid, Keyed, Collides, Addressed, IsActive, AsCsrc, Views, Index;
      ghost var t, i := View(), Index(Entries(), csrc);
      var csrcdat, created := ObtainSourceDataInstance(csrc);
      ViewsAt(sources, i);
      if created {
        AddCSRC(csrcdat, i);
      } else {
        MarkCSRC(csrcdat, from, i);
        assert t.entries[i := t.entries[i]] == t.entries;
      }
    }

    method ProcessCSRCs(csrcs: seq<uint32>, from: Sender)
      requires Linked()
      modifies this`totalCount, this`activeCount, this`silent, this`sources,
               sourceList, sourceList.table, sourceList.nodes, sources
      ensures Linked() && View() == WithCsrcs(old(View()), csrcs, from)
      ensures fresh(sourceList.nodes - old(sourceList.nodes))
      ensures GrewFresh()
    {
      hide Linked, RTPKeyHashTable.Valid, Keyed, WithCsrc, Views;
      ghost var t := View();
      assert csrcs[..0] == [];
      for i := 0 to |csrcs|
        invariant Linked() && View() == WithCsrcs(t, csrcs[..i], from)
        invariant fresh(sourceList.nodes - old(sourceList.nodes))
        invariant GrewFresh()
      {
        assert csrcs[..i + 1][..i] == csrcs[..i];
        ProcessCSRC(csrcs[i], from);
      }
      assert csrcs[..|csrcs|] == csrcs;
    }

    /** The packet up to its CSRC list. */
    method ReceiveFromSender(p: Incoming, from: Sender) returns (srcdat: RTPInternalSourceData?, stored: bool)
      requires Linked() && TableOk(View())
      modifies this`totalCount, this`senderCount, this`activeCount, this`sources,
               sourceList, sourceList.table, sourceList.nodes, sources
      ensures Linked() && fresh(sourceList.nodes - old(sourceList.nodes))
      ensures GrewFresh()
      ensures
        var t, i, u := old(View()), Index(old(Entries()), p.ssrc), Obtained(old(View()), p.ssrc);
        && i < |u.entries|
        && (srcdat == null <==> !LetIn(u.entries[i], from, true))
        && (srcdat == null ==> !stored && View() == t)
        && (srcdat != null ==> srcdat.View() == WithRtp(u.entries[i], p, from))
        && (srcdat != null ==> View() == Changed(u, i, WithRtp(u.entries[i], p, from)))
    {
      hide Linked, RTPKeyHashTable.Valid, Keyed, Views, Addressed, Collides, WithPacket, TableOk, Sound, IsActive,
        Obtained, Index, Changed;
      ghost var i, u := Index(Entries(), p.ssrc), Obtained(View(), p.ssrc);
      ObtainedSound(View(), p.ssrc);
      stored := false;
      var created;
      srcdat, created := GetSourceData(p.ssrc, from, true);
      if srcdat != null {
        AddressedSound(u.entries[i], from, true);
        ViewsAt(sources, i);
        ghost var w := View();
        assert w == WithEntry(u, i, srcdat.View());
        stored := ReceiveRTP(srcdat, p, i);
        ReceivedCounts(u, i, Addressed(u.entries[i], from, true), srcdat.View(), from, true, View());
      }
    }

    /** The whole table after a packet, from what the parts did: our own entry stands where it stood. */
    twostate lemma OwnStillMatches()
      requires old(OwnMatches()) && ownData == old(ownData)
      requires |old(sources)| <= |sources| && sources[..|old(sources)|] == old(sources)
      requires OwnSame(old(Entries()), Entries())
      ensures OwnMatches()
    {
      hide Views;
      OwnIndexSame(old(Entries()), Entries());
      var i := OwnIndex(old(Entries()));
      assert i < |old(sources)| ==> sources[..|old(sources)|][i] == sources[i];
    }

    method ProcessRTPPacket(p: Incoming, from: Sender) returns (stored: bool)
      requires Valid()
      modifies this, sourceList, sourceList.table, sourceList.nodes, sources
      ensures Valid() && View() == AfterRtp(old(View()), p, from)
      ensures fresh(sourceList.nodes - old(sourceList.nodes)) && GrewFresh()
    {
      hide Linked, RTPKeyHashTable.Valid, Keyed, Views, TableOk, WithRtp, Collides, Changed, Obtained, Index, IsActive,
        OwnIndex, WithCsrcs, OwnSame;
      ghost var t := View();
      AfterRtpOk(t, p, from);
      AfterRtpOwnSame(t, p, from);
      var srcdat;
      srcdat, stored := ReceiveFromSender(p, from);
      if srcdat != null && srcdat.validated {
        ProcessCSRCs(p.csrcs, from);
      }
      OwnStillMatches();
    }

    /** An entry that is ours is the one `ownData` points to. */
    lemma IsOwn(i: nat)
      requires Linked() && OwnMatches() && OneOwn(Entries()) && i < |sources|
      ensures sources[i] == ownData <==> Entries()[i].own
    {
      SourcesDistinct();
      hide Linked;
      ViewsAt(sources, i);
      if Entries()[i].own {
        OwnIndexUnique(Entries(), i);
      }
    }

    /** What is left to prove once an RTCP handler has changed its entry. */
    twostate lemma MessageTaken(new ssrc: uint32, new m: Message, new from: Sender)
      requires old(OwnMatches()) && old(TableOk(View())) && ownData == old(ownData) && Readable(m)
      requires |old(sources)| <= |sources| && sources[..|old(sources)|] == old(sources)
      requires old(ItemsReady(Entries())) && View() == AfterRtcp(old(View()), ssrc, m, from)
      ensures OwnMatches() && TableOk(View())
    {
      hide Views, AfterRtcp, TableOk, OwnIndex, OwnSame;
      AfterRtcpOk(old(View()), ssrc, m, from);
      AfterRtcpOwnSame(old(View()), ssrc, m, from);
      OwnStillMatches();
    }

    /** How the handlers of RTCP packets begin: the entry `a` with its address, or null. */
    method BeginMessage(ssrc: uint32, from: Sender) returns (srcdat: RTPInternalSourceData?, ghost a: Entry)
      requires Linked() && TableOk(View())
      modifies this`totalCount, this`sources, sourceList, sourceList.table, sourceList.nodes, sources
      ensures Linked() && fresh(sourceList.nodes - old(sourceList.nodes)) && GrewFresh()
      ensures old(ItemsReady(Entries()))
      ensures
        var i, u := Index(old(Entries()), ssrc), Obtained(old(View()), ssrc);
        && i < |u.entries| && a == Addressed(u.entries[i], from, false) && |a.items| == |u.entries[i].items| == NUMITEMS
        && a.sender == u.entries[i].sender && IsActive(a) == IsActive(u.entries[i]) && a.own == u.entries[i].own
        && (srcdat == null <==> !LetIn(u.entries[i], from, false))
        && (srcdat == null ==> View() == old(View()))
        && (srcdat != null ==> i < |sources| && sources[i] == srcdat && srcdat.View() == a)
        && (srcdat != null ==> View() == WithEntry(u, i, a))
    {
      hide Linked, RTPKeyHashTable.Valid, Keyed, Views, TableOk, Collides, Obtained, Index, IsActive, Addressed;
      ItemsReadyIfOk(View());
      ghost var i, u := Index(Entries(), ssrc), Obtained(View(), ssrc);
      ObtainedSound(View(), ssrc);
      AddressedCounts(u.entries[i], from, false);
      a := Addressed(u.entries[i], from, false);
      var created;
      srcdat, created := GetSourceData(ssrc, from, false);
      if srcdat != null {
        ViewsAt(sources, i);
      }
    }

    method ApplyAlive(srcdat: RTPInternalSourceData, t: Time, ghost i: nat)
      requires Linked() && i < |sources| && sources[i] == srcdat && |srcdat.View().items| == NUMITEMS
      modifies srcdat
      ensures Linked() && Entries() == old(Entries())[i := srcdat.View()]
      ensures srcdat.View() == WithMessage(old(srcdat.View()), Alive(t))
      ensures IsActive(srcdat.View()) == IsActive(old(srcdat.View()))
    {
      hide Linked, RTPKeyHashTable.Valid, Keyed, Views, IsActive, Touched;
      MessageCounts(srcdat.View(), Alive(t));
      srcdat.UpdateMessageTime(t);
      OneChanged(i);
    }

    /** `UpdateReceiveTime`; the handlers of sender reports, report blocks and private items do the
        same to everything the model keeps. */
    method UpdateReceiveTime(ssrc: uint32, t: Time, from: Sender)
      requires Valid()
      modifies this, sourceList, sourceList.table, sourceList.nodes, sources
      ensures old(ItemsReady(Entries()))
      ensures Valid() && View() == AfterRtcp(old(View()), ssrc, Alive(t), from)
      ensures fresh(sourceList.nodes - old(sourceList.nodes)) && GrewFresh()
    {
      hide Linked, RTPKeyHashTable.Valid, Keyed, Views, TableOk, Collides, Obtained, Index, IsActive, OwnIndex,
        Addressed, Touched, Changed;
      ghost var a;
      ghost var i, u := Index(Entries(), ssrc), Obtained(View(), ssrc);
      var srcdat;
      srcdat, a := BeginMessage(ssrc, from);
      if srcdat != null {
        MessageCounts(a, Alive(t));
        ApplyAlive(srcdat, t, i);
        ReceivedCounts(u, i, a, srcdat.View(), from, false, View());
      }
      MessageTaken(ssrc, Alive(t), from);
    }

    method ApplyItem(srcdat: RTPInternalSourceData, id: nat, value: seq<byte>, t: Time, ghost i: nat)
      requires Linked() && i < |sources| && sources[i] == srcdat && 1 <= id <= NUMITEMS == |srcdat.View().items|
      modifies srcdat, this`activeCount
      ensures Linked() && Entries() == old(Entries())[i := srcdat.View()]
      ensures srcdat.View() == WithMessage(old(srcdat.View()), Item(id, value, t))
      ensures activeCount == old(activeCount) + Bit(IsActive(srcdat.View())) - Bit(IsActive(old(srcdat.View())))
    {
      hide Linked, RTPKeyHashTable.Valid, Keyed, Views, IsActive, WithItem;
      MessageCounts(srcdat.View(), Item(id, value, t));
      var prevActive := srcdat.InUse();
      var cnameCollision := srcdat.ProcessSDESItem(id, value, t);
      OneChanged(i);
      if !prevActive && srcdat.InUse() {
        activeCount := activeCount + 1;
      }
    }

    /** An item of a legal type. */
    method ReceiveItem(ssrc: uint32, id: nat, value: seq<byte>, t: Time, from: Sender)
      requires Valid() && 1 <= id <= NUMITEMS
      modifies this, sourceList, sourceList.table, sourceList.nodes, sources
      ensures old(ItemsReady(Entries()))
      ensures Valid() && View() == AfterRtcp(old(View()), ssrc, Item(id, value, t), from)
      ensures fresh(sourceList.nodes - old(sourceList.nodes)) && GrewFresh()
    {
      hide Linked, RTPKeyHashTable.Valid, Keyed, Views, TableOk, Collides, Obtained, Index, IsActive, OwnIndex,
        Addressed, WithItem, Changed;
      ghost var a;
      ghost var i, u := Index(Entries(), ssrc), Obtained(View(), ssrc);
      var srcdat;
      srcdat, a := BeginMessage(ssrc, from);
      if srcdat != null {
        MessageCounts(a, Item(id, value, t));
        ApplyItem(srcdat, id, value, t, i);
        ReceivedCounts(u, i, a, srcdat.View(), from, false, View());
      }
      MessageTaken(ssrc, Item(id, value, t), from);
    }

    /** An item whose type is none of the seven is refused. */
    method ProcessSDESNormalItem(ssrc: uint32, id: nat, value: seq<byte>, t: Time, from: Sender) returns (legal: bool)
      requires Valid()
      modifies this, sourceList, sourceList.table, sourceList.nodes, sources
      ensures legal <==> 1 <= id <= NUMITEMS
      ensures legal ==> old(ItemsReady(Entries())) && View() == AfterRtcp(old(View()), ssrc, Item(id, value, t), from)
      ensures !legal ==> View() == old(View())
      ensures Valid() && fresh(sourceList.nodes - old(sourceList.nodes)) && GrewFresh()
    {
      hide Linked, OwnMatches, Views, TableOk;
      legal := CNAME <= id <= NOTE;
      if legal {
        ReceiveItem(ssrc, id, value, t, from);
      }
    }

    method ApplyBye(srcdat: RTPInternalSourceData, t: Time, ghost i: nat)
      requires Linked() && i < |sources| && sources[i] == srcdat && |srcdat.View().items| == NUMITEMS
      requires srcdat == ownData <==> srcdat.View().own
      modifies srcdat, this`activeCount
      ensures Linked() && Entries() == old(Entries())[i := srcdat.View()]
      ensures srcdat.View() == WithMessage(old(srcdat.View()), Bye(t))
      ensures activeCount == old(activeCount) + Bit(IsActive(srcdat.View())) - Bit(IsActive(old(srcdat.View())))
    {
      hide Linked, RTPKeyHashTable.Valid, Keyed, Views, IsActive, SaidBye;
      MessageCounts(srcdat.View(), Bye(t));
      ViewsAt(sources, i);
      if srcdat != ownData {
        var prevActive := srcdat.InUse();
        srcdat.ProcessBYEPacket(t);
        OneChanged(i);
        if prevActive && !srcdat.InUse() {
          activeCount := activeCount - 1;
        }
      }
    }

    method ProcessBYE(ssrc: uint32, t: Time, from: Sender)
      requires Valid()
      modifies this, sourceList, sourceList.table, sourceList.nodes, sources
      ensures old(ItemsReady(Entries()))
      ensures Valid() && View() == AfterRtcp(old(View()), ssrc, Bye(t), from)
      ensures fresh(sourceList.nodes - old(sourceList.nodes)) && GrewFresh()
    {
      hide Linked, RTPKeyHashTable.Valid, Keyed, Views, TableOk, Collides, Obtained, Index, IsActive, OwnIndex,
        Addressed, SaidBye, Changed;
      ghost var a;
      ghost var i, u := Index(Entries(), ssrc), Obtained(View(), ssrc);
      var srcdat;
      srcdat, a := BeginMessage(ssrc, from);
      if srcdat != null {
        OwnAfterAddress(ssrc, from, i);
        MessageCounts(a, Bye(t));
        ApplyBye(srcdat, t, i);
        ReceivedCounts(u, i, a, srcdat.View(), from, false, View());
      }
      MessageTaken(ssrc, Bye(t), from);
    }

    /** After an address is stored, the entry is still our own exactly if `ownData` points to it. */
    twostate lemma OwnAfterAddress(new ssrc: uint32, new from: Sender, new i: nat)
      requires old(OwnMatches()) && old(TableOk(View())) && ownData == old(ownData) && Linked()
      requires |old(sources)| <= |sources| && sources[..|old(sources)|] == old(sources)
      requires i == Index(old(Entries()), ssrc) && i < |sources| && i < |Obtained(old(View()), ssrc).entries|
      requires
        var es := Obtained(old(View()), ssrc).entries;
        Entries() == es[i := Addressed(es[i], from, false)]
      ensures sources[i] == ownData <==> Entries()[i].own
    {
      hide Views, Linked, RTPKeyHashTable.Valid, Keyed, Obtained, OwnIndex, Index, IsActive, CountsAgree, AllSound;
      var u := Obtained(old(View()), ssrc);
      ObtainedOk(old(View()), ssrc);
      AddressedCounts(u.entries[i], from, false);
      ObtainedOwnSame(old(View()), ssrc);
      assert OwnSame(old(Entries()), Entries());
      OwnStillMatches();
      assert OneOwn(Entries());
      IsOwn(i);
    }

    // -------------------------------------------------------------- the cursor

    /** The cursor stands on entry `i`, or behind the last one. */
    ghost predicate CursorAt(i: nat)
      reads sourceList`list, sourceList`nodes, sourceList`curHashElem
    {
      i <= |sourceList.list| && sourceList.HasCursor() && sourceList.curHashElem == At(sourceList.list, i)
    }

    lemma StandsAt(i: nat)
      requires Linked() && i < |sources|
      ensures i < |sourceList.list| && sourceList.list[i].listPos == i
    {
      assert |sourceList.list| == |sourceList.Contents()|;
    }

    method GotoFirstSource() returns (found: bool)
      requires Linked()
      modifies sourceList`curHashElem
      ensures Linked() && CursorAt(0)
      ensures found <==> sources != []
    {
      hide RTPKeyHashTable.Valid;
      sourceList.GotoFirstElement();
      found := sourceList.curHashElem != null;
    }

    method GotoNextSource(ghost i: nat) returns (found: bool)
      requires Linked() && CursorAt(i) && i < |sources|
      modifies sourceList`curHashElem
      ensures Linked() && CursorAt(i + 1)
      ensures found <==> i + 1 < |sources|
    {
      hide RTPKeyHashTable.Valid, Keyed;
      StandsAt(i);
      sourceList.GotoNextElement();
      found := sourceList.curHashElem != null;
    }

    method GetCurrentSourceInfo(ghost i: nat) returns (srcdat: RTPInternalSourceData?)
      requires Linked() && CursorAt(i)
      ensures srcdat == if i < |sources| then sources[i] else null
    {
      hide RTPKeyHashTable.Valid;
      assert i < |sources| ==> sourceList.Contents()[i] == (sources[i].ssrc, sources[i]);
      srcdat := null;
      if sourceList.curHashElem != null {
        srcdat := sourceList.curHashElem.element;
      }
    }

    /** Takes the entry under the cursor out of the table; the cursor moves to the next one. */
    method DeleteCurrent(ghost i: nat)
      requires Linked() && CursorAt(i) && i < |sources|
      modifies this`sources, sourceList, sourceList.table, sourceList.nodes
      ensures Linked() && CursorAt(i) && sources == Without(old(sources), i)
      ensures Entries() == Without(old(Entries()), i)
      ensures sourceList.nodes <= old(sourceList.nodes)
    {
      hide RTPKeyHashTable.Valid, Keyed, Views;
      StandsAt(i);
      KeyedWithout(sources, i);
      ViewsWithout(sources, i);
      var status := sourceList.DeleteCurrentElement();
      sources := Without(sources, i);
    }

    // -------------------------------------------------------------- timeouts

    /** Entry by entry: it is our own exactly if `ownData` points to it. */
    ghost predicate OwnByEntry()
      reads this`ownData, this`sources, sources
    {
      && (forall j | 0 <= j < |sources| :: sources[j] == ownData <==> Entries()[j].own)
      && (ownData != null ==> ownData in sources)
    }

    lemma OwnByEntryIfValid()
      requires Linked() && OwnMatches() && OneOwn(Entries())
      ensures OwnByEntry()
    {
      forall j | 0 <= j < |sources|
        ensures sources[j] == ownData <==> Entries()[j].own
      {
        IsOwn(j);
      }
    }

    lemma OwnMatchesIfByEntry()
      requires OwnByEntry()
      ensures OwnMatches()
    {
      hide Views;
      var i := OwnIndex(Entries());
      if i < |sources| {
        assert sources[i] == ownData;
      } else if j :| 0 <= j < |sources| && sources[j] == ownData {
        assert Entries()[j].own;
      }
    }

    /** In the middle of a pass: `k` entries of the `es` there were are dealt with, the cursor stands on
        the next one, and `pos` entries before it stay. */
    ghost predicate InPass(p: Pass, es: seq<Entry>, k: nat, pos: nat)
      requires ItemsReady(es)
      reads this`ownData, this`sources, sourceList, sourceList.table, sourceList.nodes, sources
    {
      Linked() && CursorAt(pos) && OwnByEntry() && Sweeping(p, es, k, Entries(), pos)
    }

    /** The cursor stands on entry `k` of the `es`, which may have been changed since. */
    ghost predicate AtEntry(p: Pass, es: seq<Entry>, k: nat, pos: nat)
      requires ItemsReady(es)
      reads this`ownData, this`sources, sourceList, sourceList.table, sourceList.nodes, sources
    {
      && Linked() && CursorAt(pos) && OwnByEntry() && k < |es| && pos < |sources|
      && Sweeping(p, es, k, Entries()[pos := es[k]], pos)
    }

    /** An entry changed under the cursor, and nothing else did. */
    twostate lemma TouchedInPass(new p: Pass, new es: seq<Entry>, new k: nat, new pos: nat)
      requires ItemsReady(es) && old(AtEntry(p, es, k, pos)) && Linked() && CursorAt(pos)
      requires sources == old(sources) && ownData == old(ownData)
      requires forall x | x in sources :: x != sources[pos] ==> unchanged(x)
      requires sources[pos].ownSsrc == old(sources[pos].ownSsrc)
      ensures AtEntry(p, es, k, pos) && Entries()[..pos] == old(Entries())[..pos]
    {
      hide Linked, RTPKeyHashTable.Valid, Keyed, Views, Sweeping;
      OneChanged(pos);
      ViewsAt(sources, pos);
      assert Entries()[pos := es[k]] == old(Entries())[pos := es[k]];
      OldViewAt(pos);
    }

    twostate lemma OldViewAt(new i: nat)
      requires sources == old(sources) && i < |sources|
      ensures old(Entries())[i].own == old(sources[i].ownSsrc)
    {
      ViewsAtOld(sources, i);
    }

    method ClearNoteHere(srcdat: RTPInternalSourceData, ghost p: Pass, ghost es: seq<Entry>, ghost k: nat,
        ghost pos: nat)
      requires ItemsReady(es) && AtEntry(p, es, k, pos) && sources[pos] == srcdat
      requires |srcdat.nonPrivateItems| == NUMITEMS
      modifies srcdat
      ensures AtEntry(p, es, k, pos) && Entries()[..pos] == old(Entries())[..pos]
      ensures |old(srcdat.View()).items| == NUMITEMS && srcdat.View() == NoteCleared(old(srcdat.View()))
      ensures IsActive(srcdat.View()) == IsActive(old(srcdat.View()))
    {
      hide Linked, RTPKeyHashTable.Valid, Keyed, Views, Sweeping, OwnByEntry;
      srcdat.ClearNote();
      TouchedInPass(p, es, k, pos);
    }

    method ClearSenderHere(srcdat: RTPInternalSourceData, ghost p: Pass, ghost es: seq<Entry>, ghost k: nat,
        ghost pos: nat)
      requires ItemsReady(es) && AtEntry(p, es, k, pos) && sources[pos] == srcdat
      modifies srcdat
      ensures AtEntry(p, es, k, pos) && Entries()[..pos] == old(Entries())[..pos]
      ensures srcdat.View() == old(srcdat.View()).(sender := false)
      ensures IsActive(srcdat.View()) == IsActive(old(srcdat.View()))
    {
      hide Linked, RTPKeyHashTable.Valid, Keyed, Views, Sweeping, OwnByEntry;
      srcdat.ClearSenderFlag();
      TouchedInPass(p, es, k, pos);
    }

    /** Leaves the entry under the cursor, as it is by now, and goes on to the next one. */
    method KeepEntry(srcdat: RTPInternalSourceData, ghost p: Pass, ghost es: seq<Entry>, ghost k: nat, ghost pos: nat)
      requires ItemsReady(es) && AtEntry(p, es, k, pos) && sources[pos] == srcdat
      requires After(p, es[k]) == Some(srcdat.View())
      modifies sourceList`curHashElem
      ensures InPass(p, es, k + 1, pos + 1)
      ensures Entries() == old(Entries())
      ensures CountSenders(Entries()[..pos + 1]) == CountSenders(Entries()[..pos]) + Bit(srcdat.isSender)
      ensures CountActive(Entries()[..pos + 1]) == CountActive(Entries()[..pos]) + Bit(IsActive(srcdat.View()))
    {
      hide Linked, RTPKeyHashTable.Valid, Keyed, Views, Sweeping, After, CountSenders, CountActive, IsActive,
        ItemsReady;
      ghost var now := Entries();
      ViewsAt(sources, pos);
      SweepKeeps(p, es, k, now[pos := es[k]], pos, srcdat.View());
      assert now[pos := es[k]][pos := srcdat.View()] == now;
      assert now[..pos + 1] == now[..pos] + [srcdat.View()];
      CountsAppend(now[..pos], srcdat.View());
      var found := GotoNextSource(pos);
    }

    /** Leaves the entry under the cursor and counts it. */
    method KeepCounted(srcdat: RTPInternalSourceData, newTotal: int, newSenders: int, newActive: int,
        ghost p: Pass, ghost es: seq<Entry>, ghost k: nat, ghost pos: nat)
          returns (total: int, senders: int, active: int)
      requires ItemsReady(es) && AtEntry(p, es, k, pos) && pos < |sources| && sources[pos] == srcdat
      requires After(p, es[k]) == Some(srcdat.View())
      requires newTotal == pos && newSenders == CountSenders(Entries()[..pos])
      requires newActive == CountActive(Entries()[..pos])
      modifies sourceList`curHashElem
      ensures InPass(p, es, k + 1, pos + 1)
      ensures Entries() == old(Entries()) && total == pos + 1 <= |sources|
      ensures senders == CountSenders(Entries()[..pos + 1]) && active == CountActive(Entries()[..pos + 1])
    {
      hide Linked, RTPKeyHashTable.Valid, Keyed, Views, Sweeping, IsActive, CountSenders, CountActive, ItemsReady,
        OwnByEntry,
        CursorAt, InPass, After, AtEntry;
      total, senders, active := newTotal + 1, newSenders, newActive;
      if srcdat.isSender {
        senders := senders + 1;
      }
      if srcdat.InUse() {
        active := active + 1;
      }
      KeepEntry(srcdat, p, es, k, pos);
    }

    /** Counts an entry out, on its way to being deleted. */
    method CountOut(srcdat: RTPInternalSourceData)
      modifies this`totalCount, this`senderCount, this`activeCount
      ensures totalCount == old(totalCount) - 1
      ensures senderCount == old(senderCount) - Bit(srcdat.View().sender)
      ensures activeCount == old(activeCount) - Bit(IsActive(srcdat.View()))
    {
      totalCount := totalCount - 1;
      if srcdat.isSender {
        senderCount := senderCount - 1;
      }
      if srcdat.InUse() {
        activeCount := activeCount - 1;
      }
    }

    /** Takes out the entry under the cursor. */
    method DropEntry(srcdat: RTPInternalSourceData, ghost p: Pass, ghost es: seq<Entry>, ghost k: nat, ghost pos: nat)
      requires ItemsReady(es) && AtEntry(p, es, k, pos) && sources[pos] == srcdat
      requires After(p, es[k]) == None && sources[pos] != ownData
      modifies this`totalCount, this`senderCount, this`activeCount, this`sources,
               sourceList, sourceList.table, sourceList.nodes
      ensures InPass(p, es, k + 1, pos)
      ensures sourceList.nodes <= old(sourceList.nodes) && forall j | 0 <= j < |sources| :: sources[j] in old(sources)
      ensures pos <= |sources| && Entries()[..pos] == old(Entries())[..pos]
    {
      hide Linked, RTPKeyHashTable.Valid, Keyed, Views, Sweeping, After, ItemsReady;
      ghost var now, before := Entries(), sources;
      SweepDrops(p, es, k, now[pos := es[k]], pos);
      assert Without(now[pos := es[k]], pos) == Without(now, pos);
      assert Without(now, pos)[..pos] == now[..pos];
      CountOut(srcdat);
      DeleteCurrent(pos);
      forall j | 0 <= j < |sources|
        ensures sources[j] == ownData <==> Entries()[j].own
        ensures sources[j] in before
      {
        assert before[if j < pos then j else j + 1] == sources[j];
      }
      if ownData != null {
        ghost var j :| 0 <= j < |before| && before[j] == ownData;
        assert sources[if j < pos then j else j - 1] == ownData;
      }
    }

    /** Where a pass stands: whether there is a next entry, and what it is. */
    lemma PassStands(p: Pass, es: seq<Entry>, k: nat, pos: nat)
      requires ItemsReady(es) && InPass(p, es, k, pos)
      ensures Linked() && CursorAt(pos) && (k < |es| ==> AtEntry(p, es, k, pos))
      ensures k <= |es| && pos <= |sources| && |sources| - pos == |es| - k
      ensures sourceList.curHashElem != null <==> k < |es|
      ensures k < |es| ==> pos < |sources| && sources[pos].View() == es[k] && |es[k].items| == NUMITEMS
      ensures k < |es| ==> (sources[pos] == ownData <==> es[k].own)
    {
      assert |sourceList.list| == |sourceList.Contents()| == |sources|;
      hide Linked, RTPKeyHashTable.Valid, Views;
      if k < |es| {
        SweepNext(p, es, k, Entries(), pos);
        ViewsAt(sources, pos);
        assert Entries()[pos := es[k]] == Entries();
      }
    }

    lemma PassStarts(p: Pass)
      requires Valid()
      ensures ItemsReady(Entries()) && OwnByEntry() && Sweeping(p, Entries(), 0, Entries(), 0)
      ensures CountSenders(Entries()[..0]) == 0 && CountActive(Entries()[..0]) == 0
      ensures CursorAt(0) ==> InPass(p, Entries(), 0, 0)
    {
      ItemsReadyIfOk(View());
      hide Linked, Views;
      OwnByEntryIfValid();
    }

    /** What a finished pass leaves, once the counts are stored. */
    lemma PassEnds(p: Pass, t: Table, pos: nat)
      requires TableOk(t) && ItemsReady(t.entries) && InPass(p, t.entries, |t.entries|, pos)
      requires totalCount == pos && senderCount == CountSenders(Entries()[..pos])
      requires activeCount == CountActive(Entries()[..pos]) && silent == 0 && probationType == t.probation
      ensures Valid() && View() == Swept(t, p)
    {
      hide Linked, Views, TableOk, Survivors, CountSenders, CountActive;
      SweepDone(p, t.entries, Entries(), pos);
      assert Entries()[..pos] == Entries();
      SweptOk(t, p);
      OwnMatchesIfByEntry();
    }

    /** The end of every pass: the counts are stored. */
    method StoreCounts(newTotal: int, newSenders: int, newActive: int, ghost p: Pass, ghost t: Table, ghost pos: nat)
      requires TableOk(t) && ItemsReady(t.entries) && InPass(p, t.entries, |t.entries|, pos) && pos <= |sources|
      requires newTotal == pos && newSenders == CountSenders(Entries()[..pos])
      requires newActive == CountActive(Entries()[..pos])
      requires probationType == t.probation
      modifies this`totalCount, this`senderCount, this`activeCount, this`silent
      ensures Valid() && View() == Swept(t, p)
    {
      hide Linked, Views, TableOk, CountSenders, CountActive, ItemsReady, Sweeping, CursorAt, Swept, OwnByEntry;
      totalCount, senderCount, activeCount := newTotal, newSenders, newActive;
      silent := 0;
      PassEnds(p, t, pos);
    }

    method Timeout(curTime: Time, timeoutDelay: Time)
      requires Valid()
      modifies this, sourceList, sourceList.table, sourceList.nodes, sources
      ensures old(ItemsReady(Entries()))
      ensures Valid() && View() == Swept(old(View()), GeneralPass(curTime - timeoutDelay))
    {
      hide Linked, RTPKeyHashTable.Valid, Keyed, Views, TableOk, Sweeping, IsActive, CountSenders, CountActive,
        ItemsReady,
        OwnByEntry, OwnMatches, CursorAt, Survivors, InPass, AtEntry, Swept;
      var newTotal, newSenders, newActive := 0, 0, 0;
      var checkTime := curTime - timeoutDelay;
      ghost var p, t, es, k: nat, pos: nat := GeneralPass(checkTime), View(), Entries(), 0, 0;
      var found := GotoFirstSource();
      PassStarts(p);
      while sourceList.curHashElem != null
        invariant InPass(p, es, k, pos)
        invariant sourceList.nodes <= old(sourceList.nodes)
        invariant forall j | 0 <= j < |sources| :: sources[j] in old(sources)
        invariant newTotal == pos <= |sources|
        invariant newSenders == CountSenders(Entries()[..pos]) && newActive == CountActive(Entries()[..pos])
        decreases |es| - k
      {
        PassStands(p, es, k, pos);
        var srcdat := GetCurrentSourceInfo(pos);
        var lastMsgTime := srcdat.stats.timing.lastMsgTime;
        if srcdat != ownData && lastMsgTime < checkTime {
          DropEntry(srcdat, p, es, k, pos);
          k := k + 1;
        } else {
          newTotal, newSenders, newActive := KeepCounted(srcdat, newTotal, newSenders, newActive, p, es, k, pos);
          k, pos := k + 1, pos + 1;
        }
      }
      PassStands(p, es, k, pos);
      StoreCounts(newTotal, newSenders, newActive, p, t, pos);
    }

    method BYETimeout(curTime: Time, timeoutDelay: Time)
      requires Valid()
      modifies this, sourceList, sourceList.table, sourceList.nodes, sources
      ensures old(ItemsReady(Entries()))
      ensures Valid() && View() == Swept(old(View()), ByePass(curTime - timeoutDelay))
    {
      hide Linked, RTPKeyHashTable.Valid, Keyed, Views, TableOk, Sweeping, IsActive, CountSenders, CountActive,
        ItemsReady,
        OwnByEntry, OwnMatches, CursorAt, Survivors, InPass, AtEntry, Swept;
      var newTotal, newSenders, newActive := 0, 0, 0;
      var checkTime := curTime - timeoutDelay;
      ghost var p, t, es, k: nat, pos: nat := ByePass(checkTime), View(), Entries(), 0, 0;
      var found := GotoFirstSource();
      PassStarts(p);
      while sourceList.curHashElem != null
        invariant InPass(p, es, k, pos)
        invariant sourceList.nodes <= old(sourceList.nodes)
        invariant forall j | 0 <= j < |sources| :: sources[j] in old(sources)
        invariant newTotal == pos <= |sources|
        invariant newSenders == CountSenders(Entries()[..pos]) && newActive == CountActive(Entries()[..pos])
        decreases |es| - k
      {
        PassStands(p, es, k, pos);
        var srcdat := GetCurrentSourceInfo(pos);
        if srcdat.receivedBye && srcdat != ownData && checkTime > srcdat.byeTime {
          DropEntry(srcdat, p, es, k, pos);
          k := k + 1;
        } else {
          newTotal, newSenders, newActive := KeepCounted(srcdat, newTotal, newSenders, newActive, p, es, k, pos);
          k, pos := k + 1, pos + 1;
        }
      }
      PassStands(p, es, k, pos);
      StoreCounts(newTotal, newSenders, newActive, p, t, pos);
    }

    method NoteTimeout(curTime: Time, timeoutDelay: Time)
      requires Valid()
      modifies this, sourceList, sourceList.table, sourceList.nodes, sources
      ensures old(ItemsReady(Entries()))
      ensures Valid() && View() == Swept(old(View()), NotePass(curTime - timeoutDelay))
    {
      hide Linked, RTPKeyHashTable.Valid, Keyed, Views, TableOk, Sweeping, IsActive, CountSenders, CountActive,
        ItemsReady,
        OwnByEntry, OwnMatches, CursorAt, Survivors, InPass, AtEntry, Swept;
      var newTotal, newSenders, newActive := 0, 0, 0;
      var checkTime := curTime - timeoutDelay;
      ghost var p, t, es, k: nat, pos: nat := NotePass(checkTime), View(), Entries(), 0, 0;
      var found := GotoFirstSource();
      PassStarts(p);
      while sourceList.curHashElem != null
        invariant InPass(p, es, k, pos)
        invariant sourceList.nodes <= old(sourceList.nodes)
        invariant forall j | 0 <= j < |sources| :: sources[j] in old(sources)
        invariant newTotal == pos <= |sources|
        invariant newSenders == CountSenders(Entries()[..pos]) && newActive == CountActive(Entries()[..pos])
        decreases |es| - k
      {
        PassStands(p, es, k, pos);
        var srcdat := GetCurrentSourceInfo(pos);
        if srcdat.nonPrivateItems[NOTE - 1] != [] && checkTime > srcdat.lastNoteTime {
          ClearNoteHere(srcdat, p, es, k, pos);
        }
        newTotal, newSenders, newActive := KeepCounted(srcdat, newTotal, newSenders, newActive, p, es, k, pos);
        k, pos := k + 1, pos + 1;
      }
      PassStands(p, es, k, pos);
      StoreCounts(newTotal, newSenders, newActive, p, t, pos);
    }

    method SenderTimeout(curTime: Time, timeoutDelay: Time)
      requires Valid()
      modifies this, sourceList, sourceList.table, sourceList.nodes, sources
      ensures old(ItemsReady(Entries()))
      ensures Valid() && View() == Swept(old(View()), SenderPass(curTime - timeoutDelay))
    {
      hide Linked, RTPKeyHashTable.Valid, Keyed, Views, TableOk, Sweeping, IsActive, CountSenders, CountActive,
        ItemsReady,
        OwnByEntry, OwnMatches, CursorAt, Survivors, InPass, AtEntry, Swept;
      var newTotal, newSenders, newActive := 0, 0, 0;
      var checkTime := curTime - timeoutDelay;
      ghost var p, t, es, k: nat, pos: nat := SenderPass(checkTime), View(), Entries(), 0, 0;
      var found := GotoFirstSource();
      PassStarts(p);
      while sourceList.curHashElem != null
        invariant InPass(p, es, k, pos)
        invariant sourceList.nodes <= old(sourceList.nodes)
        invariant forall j | 0 <= j < |sources| :: sources[j] in old(sources)
        invariant newTotal == pos <= |sources|
        invariant newSenders == CountSenders(Entries()[..pos]) && newActive == CountActive(Entries()[..pos])
        decreases |es| - k
      {
        PassStands(p, es, k, pos);
        var srcdat := GetCurrentSourceInfo(pos);
        if srcdat.isSender {
          if srcdat.stats.timing.lastRtpTime < checkTime {
            ClearSenderHere(srcdat, p, es, k, pos);
          }
        }
        newTotal, newSenders, newActive := KeepCounted(srcdat, newTotal, newSenders, newActive, p, es, k, pos);
        k, pos := k + 1, pos + 1;
      }
      PassStands(p, es, k, pos);
      StoreCounts(newTotal, newSenders, newActive, p, t, pos);
    }

    /** `MultipleTimeouts` on one entry. */
    method CheckAll(srcdat: RTPInternalSourceData, senderCheckTime: Time, byeCheckTime: Time, generalCheckTime: Time,
        noteCheckTime: Time, newTotal: int, newSenders: int, newActive: int,
        ghost es: seq<Entry>, ghost k: nat, ghost pos: nat)
      returns (total: int, senders: int, active: int, ghost next: nat)
      requires ItemsReady(es) && k < |es| && pos < |sources| && sources[pos] == srcdat
      requires AtEntry(FusedPass(senderCheckTime, byeCheckTime, generalCheckTime, noteCheckTime), es, k, pos)
      requires srcdat.View() == es[k] && |es[k].items| == NUMITEMS && (srcdat == ownData <==> es[k].own)
      requires newTotal == pos
      requires newSenders == CountSenders(Entries()[..pos]) && newActive == CountActive(Entries()[..pos])
      modifies srcdat, this`totalCount, this`senderCount, this`activeCount, this`sources,
               sourceList, sourceList.table, sourceList.nodes
      ensures InPass(FusedPass(senderCheckTime, byeCheckTime, generalCheckTime, noteCheckTime), es, k + 1, next)
      ensures total == next <= |sources|
      ensures senders == CountSenders(Entries()[..next]) && active == CountActive(Entries()[..next])
      ensures sourceList.nodes <= old(sourceList.nodes) && forall j | 0 <= j < |sources| :: sources[j] in old(sources)
    {
      hide Linked, RTPKeyHashTable.Valid, Keyed, Views, TableOk, Sweeping, IsActive, CountSenders, CountActive,
        ItemsReady,
        OwnByEntry, OwnMatches, CursorAt, Survivors, InPass, AtEntry, Swept, After, NoteCleared;
      FusedFate(es[k], senderCheckTime, byeCheckTime, generalCheckTime, noteCheckTime);
      ghost var p := FusedPass(senderCheckTime, byeCheckTime, generalCheckTime, noteCheckTime);
      total, senders, active, next := newTotal, newSenders, newActive, pos;
      if srcdat.nonPrivateItems[NOTE - 1] != [] && noteCheckTime > srcdat.lastNoteTime {
        ClearNoteHere(srcdat, p, es, k, pos);
      }
      if srcdat != ownData
         && ((srcdat.receivedBye && byeCheckTime > srcdat.byeTime)
             || srcdat.stats.timing.lastMsgTime < generalCheckTime) {
        DropEntry(srcdat, p, es, k, pos);
      } else {
        if srcdat.isSender {
          if srcdat.stats.timing.lastRtpTime < senderCheckTime {
            ClearSenderHere(srcdat, p, es, k, pos);
          }
        }
        total, senders, active := KeepCounted(srcdat, newTotal, newSenders, newActive, p, es, k, pos);
        next := pos + 1;
      }
    }

    method MultipleTimeouts(curTime: Time, senderTimeout: Time, byeTimeout: Time, generalTimeout: Time,
        noteTimeout: Time)
      requires Valid()
      modifies this, sourceList, sourceList.table, sourceList.nodes, sources
      ensures old(ItemsReady(Entries()))
      ensures Valid() && View() == Swept(old(View()),
        FusedPass(curTime - senderTimeout, curTime - byeTimeout, curTime - generalTimeout, curTime - noteTimeout))
    {
      hide Linked, RTPKeyHashTable.Valid, Keyed, Views, TableOk, Sweeping, IsActive, CountSenders, CountActive,
        ItemsReady,
        OwnByEntry, OwnMatches, CursorAt, Survivors, InPass, AtEntry, Swept;
      var newTotal, newSenders, newActive := 0, 0, 0;
      var senderCheckTime, byeCheckTime := curTime - senderTimeout, curTime - byeTimeout;
      var generalCheckTime, noteCheckTime := curTime - generalTimeout, curTime - noteTimeout;
      ghost var p := FusedPass(senderCheckTime, byeCheckTime, generalCheckTime, noteCheckTime);
      ghost var t, es, k: nat, pos: nat := View(), Entries(), 0, 0;
      var found := GotoFirstSource();
      PassStarts(p);
      while sourceList.curHashElem != null
        invariant InPass(p, es, k, pos)
        invariant sourceList.nodes <= old(sourceList.nodes)
        invariant forall j | 0 <= j < |sources| :: sources[j] in old(sources)
        invariant newTotal == pos <= |sources|
        invariant newSenders == CountSenders(Entries()[..pos]) && newActive == CountActive(Entries()[..pos])
        decreases |es| - k
      {
        PassStands(p, es, k, pos);
        var srcdat := GetCurrentSourceInfo(pos);
        newTotal, newSenders, newActive, pos := CheckAll(srcdat, senderCheckTime, byeCheckTime, generalCheckTime,
          noteCheckTime, newTotal, newSenders, newActive, es, k, pos);
        k := k + 1;
      }
      PassStands(p, es, k, pos);
      StoreCounts(newTotal, newSenders, newActive, p, t, pos);
    }

    // -------------------------------------------------------------- our own entry

    lemma NoOwnIfNull()
      requires OwnMatches()
      ensures ownData == null <==> OwnIndex(Entries()) == |Entries()|
      ensures ownData != null ==> OwnIndex(Entries()) < |sources| && sources[OwnIndex(Entries())] == ownData
    {
      hide Views;
    }

    method CreateOwnSSRC(ssrc: uint32) returns (error: Option<OwnError>)
      requires Valid()
      modifies this, sourceList, sourceList.table, sourceList.nodes
      ensures Valid() && View() == OwnCreated(old(View()), ssrc)
      ensures error == if old(ownData) != null then Some(AlreadyHaveOwnSsrc)
                       else if Has(old(View()), ssrc) then Some(SsrcExists) else None
      ensures error == None ==> ownData != null && fresh(ownData) && ownData.ssrc == ssrc
    {
      hide Linked, RTPKeyHashTable.Valid, Keyed, Views, TableOk, OwnIndex, IsActive;
      NoOwnIfNull();
      if ownData != null {
        return Some(AlreadyHaveOwnSsrc);
      }
      var got := GotEntry(ssrc);
      if got {
        return Some(SsrcExists);
      }
      OwnOk(View(), ssrc, 0.0);
      MakeOwn(ssrc);
      error := None;
    }

    method MakeOwn(ssrc: uint32)
      requires Linked() && !Has(View(), ssrc) && OwnIndex(Entries()) == |Entries()|
      modifies this, sourceList, sourceList.table, sourceList.nodes
      ensures Linked() && OwnMatches() && View() == Added(old(View()), OwnEntry(ssrc, probationType))
      ensures ownData != null && fresh(ownData) && ownData.ssrc == ssrc
    {
      hide Linked, RTPKeyHashTable.Valid, Keyed, Views, IsActive, OwnIndex, OwnEntry, Has;
      ghost var t := View();
      AppendOwn(ssrc);
      activeCount := activeCount + 1;
      AddedOwn(t, ssrc);
      OwnAtEnd(t.entries, OwnEntry(ssrc, probationType));
    }

    /** Our own entry at the end of the table, not counted as active yet. */
    method AppendOwn(ssrc: uint32)
      requires Linked() && !Has(View(), ssrc)
      modifies this`totalCount, this`sources, this`ownData, sourceList, sourceList.table, sourceList.nodes
      ensures Linked() && ownData != null && fresh(ownData) && ownData.ssrc == ssrc
      ensures sources == old(sources) + [ownData] && totalCount == old(totalCount) + 1
      ensures Entries() == old(Entries()) + [OwnEntry(ssrc, probationType)]
    {
      hide Linked, RTPKeyHashTable.Valid, Keyed, Views, IsActive, OwnIndex, NewEntry, OwnEntry, Index, Has, Obtained;
      ghost var t := View();
      ObtainedNew(t, ssrc);
      var created;
      ownData, created := ObtainSourceDataInstance(ssrc);
      ViewsAt(sources, |t.entries|);
      Adopt(|t.entries|);
      assert (t.entries + [NewEntry(ssrc, t.probation)])[|t.entries| := ownData.View()] == t.entries + [ownData.View()];
    }

    static lemma ObtainedNew(t: Table, ssrc: uint32)
      requires !Has(t, ssrc)
      ensures Index(t.entries, ssrc) == |t.entries|
      ensures Obtained(t, ssrc) == t.(entries := t.entries + [NewEntry(ssrc, t.probation)], total := t.total + 1)
      ensures OwnEntry(ssrc, t.probation) ==
        NewEntry(ssrc, t.probation).(own := true, validated := true, rtp := Set(None), rtcp := Set(None))
      ensures NewEntry(ssrc, t.probation).ssrc == ssrc
    {
    }

    static lemma AddedOwn(t: Table, ssrc: uint32)
      ensures
        var e := OwnEntry(ssrc, t.probation);
        && e.own && Added(t, e) == t.(entries := t.entries + [e], total := t.total + 1, active := t.active + 1)
    {
    }

    method Adopt(ghost i: nat)
      requires Linked() && i < |sources| && ownData != null && sources[i] == ownData
      modifies ownData
      ensures Linked() && Entries() == old(Entries())[i := ownData.View()]
      ensures ownData.View() ==
        old(ownData.View()).(own := true, validated := true, rtp := Set(None), rtcp := Set(None))
    {
      hide Linked, RTPKeyHashTable.Valid, Keyed, Views;
      ownData.SetOwnSSRC();
      ownData.SetRTPDataAddress(None);
      ownData.SetRTCPDataAddress(None);
      OneChanged(i);
    }

    static lemma OwnAtEnd(es: seq<Entry>, e: Entry)
      requires OwnIndex(es) == |es| && e.own
      ensures OwnIndex(es + [e]) == |es|
    {
      assert (es + [e])[|es|] == e;
      assert forall j | 0 <= j < |es| :: !(es + [e])[j].own;
    }

    method DeleteOwnSSRC() returns (error: Option<OwnError>)
      requires Valid()
      modifies this, sourceList, sourceList.table, sourceList.nodes
      ensures Valid() && View() == OwnDeleted(old(View())) && ownData == null
      ensures error == if old(ownData) == null then Some(DontHaveOwnSsrc) else None
    {
      hide Linked, RTPKeyHashTable.Valid, Keyed, Views, TableOk, OwnIndex, IsActive;
      NoOwnIfNull();
      OwnOk(View(), 0, 0.0);
      if ownData == null {
        return Some(DontHaveOwnSsrc);
      }
      ghost var i, es := OwnIndex(Entries()), Entries();
      ViewsAt(sources, i);
      OwnGone(View());
      GotoOwn(i);
      DeleteCurrent(i);
      CountOut(ownData);
      ownData := null;
      error := None;
    }

    /** The cursor on our own entry. */
    method GotoOwn(ghost i: nat)
      requires Linked() && i < |sources| && sources[i] == ownData
      modifies sourceList`curHashElem
      ensures Linked() && CursorAt(i)
    {
      assert sourceList.Contents()[i] == (ownData.ssrc, ownData);
      assert sourceList.list[i].key == ownData.ssrc;
      SourcesDistinct();
      var status := sourceList.GotoElement(ownData.ssrc);
      assert sourceList.Contents()[sourceList.curHashElem.listPos].0 == ownData.ssrc;
    }

    static lemma OwnGone(t: Table)
      requires TableOk(t) && OwnIndex(t.entries) < |t.entries|
      ensures OwnIndex(OwnDeleted(t).entries) == |OwnDeleted(t).entries|
    {
      var i, r := OwnIndex(t.entries), OwnDeleted(t).entries;
      forall j | 0 <= j < |r|
        ensures !r[j].own
      {
        assert r[j] == t.entries[if j < i then j else j + 1];
      }
    }

    method SentRTPPacket(now: Time)
      requires Valid()
      modifies this, sources
      ensures Valid() && View() == OwnSent(old(View()), now)
    {
      hide Linked, RTPKeyHashTable.Valid, Keyed, Views, TableOk, OwnIndex, IsActive, Sent;
      NoOwnIfNull();
      OwnOk(View(), 0, now);
      if ownData == null {
        return;
      }
      ghost var i, t := OwnIndex(Entries()), View();
      ViewsAt(sources, i);
      SentCounts(t.entries[i], now);
      OwnIndexOfChange(t.entries, i, Sent(t.entries[i], now));
      var prevSender := ownData.isSender;
      ownData.SentRTPPacket(now);
      OneChanged(i);
      if !prevSender && ownData.isSender {
        senderCount := senderCount + 1;
      }
    }

    static lemma SentCounts(e: Entry, now: Time)
      requires e.own
      ensures Sent(e, now).sender && Sent(e, now).own && IsActive(Sent(e, now)) == IsActive(e)
    {
    }

    static lemma OwnIndexOfChange(es: seq<Entry>, i: nat, e: Entry)
      requires i < |es| && e.own == es[i].own
      ensures OwnIndex(es[i := e]) == OwnIndex(es)
    {
      hide OwnIndex;
      OwnIndexSame(es, es[i := e]);
    }

    // -------------------------------------------------------------- the rest

    /** The next packet of the entry under the cursor. */
    method GetNextPacket(ghost i: nat) returns (p: Option<Packet>)
      requires Valid() && CursorAt(i)
      modifies sources
      ensures Valid() && sources == old(sources)
      ensures i == |sources| ==> p == None && View() == old(View())
      ensures i < |sources| ==> View() == Taken(old(View()), sources[i].ssrc)
      ensures i < |sources| && old(Entries())[i].validated && old(Entries())[i].queue != [] ==>
        p == Some(old(Entries())[i].queue[0])
    {
      hide Linked, RTPKeyHashTable.Valid, Keyed, Views, TableOk, OwnIndex, IsActive, Index, CursorAt;
      p := None;
      var srcdat := GetCurrentSourceInfo(i);
      if srcdat == null {
        return;
      }
      ghost var t := View();
      ViewsAt(sources, i);
      EntryAtIndex(i);
      TakenOk(t, srcdat.ssrc);
      QueueAt(i);
      TakenCounts(t.entries[i]);
      ghost var q := t.entries[i].queue;
      OwnIndexOfChange(t.entries, i, t.entries[i].(queue := if q == [] then [] else q[1..]));
      p := srcdat.GetNextPacket();
      OneChanged(i);
      assert p == None ==> t.entries[i := t.entries[i]] == t.entries;
    }

    lemma EntryAtIndex(i: nat)
      requires Linked() && i < |sources|
      ensures Index(Entries(), sources[i].ssrc) == i
    {
      SourcesDistinct();
      ViewsAll(sources);
    }

    lemma QueueAt(i: nat)
      requires TableOk(View()) && i < |sources|
      ensures Increasing(sources[i].packetList)
    {
      ViewsAt(sources, i);
      assert Sound(Entries()[i]);
    }

    static lemma TakenCounts(e: Entry)
      ensures forall q :: IsActive(e.(queue := q)) == IsActive(e)
    {
    }

    method Clear()
      requires Valid()
      modifies this, sourceList, sourceList.table
      ensures Valid() && View() == Recounted([], probationType)
    {
      hide TableOk, Views, OwnIndex, RTPKeyHashTable.Valid;
      sourceList.Clear();
      sources, silent, ownData := [], 0, null;
      totalCount, senderCount, activeCount := 0, 0, 0;
      EmptyOk(probationType);
      assert Recounted([], probationType) == Empty(probationType);
    }
  }
}
