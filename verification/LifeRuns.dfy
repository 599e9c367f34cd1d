/** What an entry of the source table tells of its source over whole runs: which SDES items it has, when
    it was heard, whether it left, and when a timeout takes it away. */
module LifeRuns {
  import opened Bytes
  import opened PacketQueue
  import opened ReportMarks
  import opened SourceStats
  import opened SourceData
  import opened SourceTable
  import opened SourceRuns

  /** What reaches an entry: a sign of life, media (an RTP packet that is accepted, or one of ours that
      goes out), an SDES item, a BYE; and that its note was dropped for being old. */
  datatype Saying =
    | Heard(time: Time)
    | Played(time: Time)
    | Said(id: nat, value: seq<byte>, time: Time)
    | Gone(time: Time)
    | Dropped

  // ---------------------------------------------------------------- what a list of them says

  /** The first value of an item that is not empty. */
  function FirstSaid(h: seq<Saying>, id: nat): seq<byte> {
    if h == [] then []
    else if h[0].Said? && h[0].id == id && h[0].value != [] then h[0].value
    else FirstSaid(h[1..], id)
  }

  predicate Ever(h: seq<Saying>, id: nat) {
    exists i :: 0 <= i < |h| && h[i].Said? && h[i].id == id
  }

  predicate IsLast(h: seq<Saying>, id: nat, i: nat) {
    && i < |h| && h[i].Said? && h[i].id == id
    && forall j | i < j < |h| :: !(h[j].Said? && h[j].id == id)
  }

  /** The last value, and nothing if there is none. */
  ghost predicate LastValue(h: seq<Saying>, id: nat, value: seq<byte>) {
    if Ever(h, id) then exists i: nat :: IsLast(h, id, i) && h[i].value == value else value == []
  }

  /** The note is the last one, unless it was dropped since; and when it came. */
  ghost predicate NoteIs(h: seq<Saying>, value: seq<byte>, time: Time) {
    if Ever(h, NOTE) then
      exists i: nat :: IsLast(h, NOTE, i) && time == h[i].time
                  && value == if exists j :: i < j < |h| && h[j] == Dropped then [] else h[i].value
    else value == [] && time == 0.0
  }

  /** When the source was heard of last. */
  function WhenHeard(h: seq<Saying>): Time {
    if h == [] then 0.0 else if h[|h| - 1] == Dropped then WhenHeard(h[..|h| - 1]) else h[|h| - 1].time
  }

  predicate Left(h: seq<Saying>) {
    exists i :: 0 <= i < |h| && h[i].Gone?
  }

  /** When it last sent media. */
  function WhenPlayed(h: seq<Saying>): Time {
    if h == [] then 0.0 else if h[|h| - 1].Played? then h[|h| - 1].time else WhenPlayed(h[..|h| - 1])
  }

  function WhenGone(h: seq<Saying>): Time {
    if h == [] then 0.0 else if h[|h| - 1].Gone? then h[|h| - 1].time else WhenGone(h[..|h| - 1])
  }

  function WhenNoted(h: seq<Saying>): Time {
    if h == [] then 0.0
    else if h[|h| - 1].Said? && h[|h| - 1].id == NOTE then h[|h| - 1].time
    else WhenNoted(h[..|h| - 1])
  }

  /** The entry says what its source said: the first CNAME, name, e-mail and tool, the last phone and
      location, the note since it was dropped; when it was heard and when it played, and whether it left.
      Packets wait only if they count, or are kept while they do not. */
  ghost predicate Tells(e: Entry, h: seq<Saying>) {
    && |e.items| == NUMITEMS
    && (forall id | id in {CNAME, NAME, EMAIL, TOOL} :: e.items[id - 1] == FirstSaid(h, id))
    && LastValue(h, PHONE, e.items[PHONE - 1]) && LastValue(h, LOCATION, e.items[LOCATION - 1])
    && NoteIs(h, e.items[NOTE - 1], e.lastNoteTime)
    && (Ever(h, CNAME) ==> e.validated)
    && e.stats.timing.lastMsgTime == WhenHeard(h)
    && e.stats.timing.lastRtpTime == WhenPlayed(h)
    && (e.bye <==> Left(h)) && e.byeTime == WhenGone(h)
    && (e.queue != [] ==> e.validated || e.probation == ProbationStore)
  }

  // ---------------------------------------------------------------- one more saying

  lemma {:induction false} FirstAppend(h: seq<Saying>, x: Saying, id: nat)
    ensures FirstSaid(h + [x], id) ==
      if FirstSaid(h, id) != [] then FirstSaid(h, id) else if x.Said? && x.id == id then x.value else []
  {
    if h == [] {
      assert [x][1..] == [];
    } else {
      assert (h + [x])[1..] == h[1..] + [x];
      FirstAppend(h[1..], x, id);
    }
  }

  lemma EverAppend(h: seq<Saying>, x: Saying, id: nat)
    ensures Ever(h + [x], id) <==> Ever(h, id) || (x.Said? && x.id == id)
  {
    var g := h + [x];
    if i :| 0 <= i < |h| && h[i].Said? && h[i].id == id {
      assert g[i] == h[i];
    }
    assert g[|h|] == x;
  }

  lemma IsLastAppend(h: seq<Saying>, x: Saying, id: nat, i: nat)
    requires IsLast(h, id, i) && !(x.Said? && x.id == id)
    ensures IsLast(h + [x], id, i) && (h + [x])[i] == h[i]
  {
  }

  lemma LastAppend(h: seq<Saying>, x: Saying, id: nat, value: seq<byte>)
    requires LastValue(h, id, value)
    ensures LastValue(h + [x], id, if x.Said? && x.id == id then x.value else value)
  {
    hide Ever;
    EverAppend(h, x, id);
    if x.Said? && x.id == id {
      SaidLast(h, x);
    } else if Ever(h, id) {
      var i: nat :| IsLast(h, id, i) && h[i].value == value;
      IsLastAppend(h, x, id, i);
    }
  }

  lemma SaidLast(h: seq<Saying>, x: Saying)
    requires x.Said?
    ensures IsLast(h + [x], x.id, |h|) && (h + [x])[|h|] == x
  {
  }

  lemma NoteAppend(h: seq<Saying>, x: Saying, value: seq<byte>, time: Time)
    requires NoteIs(h, value, time)
    ensures NoteIs(h + [x], if x == Dropped then [] else if x.Said? && x.id == NOTE then x.value else value,
                   if x.Said? && x.id == NOTE then x.time else time)
  {
    hide Ever;
    EverAppend(h, x, NOTE);
    var g := h + [x];
    if x.Said? && x.id == NOTE {
      SaidLast(h, x);
      assert |g| == |h| + 1;
    } else if Ever(h, NOTE) {
      var i: nat :| IsLast(h, NOTE, i) && time == h[i].time
               && value == if exists j :: i < j < |h| && h[j] == Dropped then [] else h[i].value;
      IsLastAppend(h, x, NOTE, i);
      if j :| i < j < |h| && h[j] == Dropped {
        assert g[j] == Dropped;
      }
      assert g[|h|] == x;
    }
  }

  lemma LeftAppend(h: seq<Saying>, x: Saying)
    ensures Left(h + [x]) <==> Left(h) || x.Gone?
  {
    var g := h + [x];
    if i :| 0 <= i < |h| && h[i].Gone? {
      assert g[i] == h[i];
    }
    assert g[|h|] == x;
  }

  lemma TimesAppend(h: seq<Saying>, x: Saying)
    ensures WhenHeard(h + [x]) == if x == Dropped then WhenHeard(h) else x.time
    ensures WhenPlayed(h + [x]) == if x.Played? then x.time else WhenPlayed(h)
    ensures WhenGone(h + [x]) == if x.Gone? then x.time else WhenGone(h)
    ensures WhenNoted(h + [x]) == if x.Said? && x.id == NOTE then x.time else WhenNoted(h)
  {
    assert (h + [x])[..|h|] == h;
  }

  lemma {:induction false} NotedIs(h: seq<Saying>, value: seq<byte>, time: Time)
    requires NoteIs(h, value, time)
    ensures time == WhenNoted(h)
  {
    if Ever(h, NOTE) {
      var i: nat :| IsLast(h, NOTE, i) && time == h[i].time;
      NotedAt(h, i);
    } else {
      NeverNoted(h);
    }
  }

  lemma {:induction false} NotedAt(h: seq<Saying>, i: nat)
    requires IsLast(h, NOTE, i)
    ensures WhenNoted(h) == h[i].time
  {
    var n := |h| - 1;
    if i < n {
      assert !(h[n].Said? && h[n].id == NOTE);
      assert IsLast(h[..n], NOTE, i);
      NotedAt(h[..n], i);
    }
  }

  lemma {:induction false} NeverNoted(h: seq<Saying>)
    requires !Ever(h, NOTE)
    ensures WhenNoted(h) == 0.0
  {
    if h != [] {
      var n := |h| - 1;
      assert !(h[n].Said? && h[n].id == NOTE);
      forall i | 0 <= i < n
        ensures !(h[..n][i].Said? && h[..n][i].id == NOTE)
      {
        assert h[..n][i] == h[i];
      }
      NeverNoted(h[..n]);
    }
  }

  predicate StickingItem(e: Entry, f: Entry, x: Saying, id: nat)
    requires |e.items| == |f.items| == NUMITEMS && 1 <= id <= NUMITEMS
  {
    f.items[id - 1] == if e.items[id - 1] == [] && x.Said? && x.id == id then x.value else e.items[id - 1]
  }

  predicate FollowingItem(e: Entry, f: Entry, x: Saying, id: nat)
    requires |e.items| == |f.items| == NUMITEMS && 1 <= id <= NUMITEMS
  {
    f.items[id - 1] == if x.Said? && x.id == id then x.value else e.items[id - 1]
  }

  /** What a saying makes of an entry, field by field. */
  lemma TellsMore(e: Entry, f: Entry, h: seq<Saying>, x: Saying)
    requires Tells(e, h) && |e.items| == |f.items| == NUMITEMS
    requires x.Said? ==> 1 <= x.id <= NUMITEMS
    requires StickingItem(e, f, x, CNAME) && StickingItem(e, f, x, NAME)
    requires StickingItem(e, f, x, EMAIL) && StickingItem(e, f, x, TOOL)
    requires FollowingItem(e, f, x, PHONE) && FollowingItem(e, f, x, LOCATION)
    requires
      f.items[NOTE - 1] ==
        if x == Dropped then [] else if x.Said? && x.id == NOTE then x.value else e.items[NOTE - 1]
    requires f.lastNoteTime == if x.Said? && x.id == NOTE then x.time else e.lastNoteTime
    requires (e.validated || (x.Said? && x.id == CNAME)) ==> f.validated
    requires f.stats.timing.lastMsgTime == if x == Dropped then e.stats.timing.lastMsgTime else x.time
    requires f.stats.timing.lastRtpTime == if x.Played? then x.time else e.stats.timing.lastRtpTime
    requires f.queue != [] ==> f.validated || f.probation == ProbationStore
    requires f.bye == (e.bye || x.Gone?) && f.byeTime == if x.Gone? then x.time else e.byeTime
    ensures Tells(f, h + [x])
  {
    hide FirstSaid, LastValue, NoteIs, Left, Ever, WhenHeard, WhenPlayed, WhenGone;
    FirstAppend(h, x, CNAME);
    FirstAppend(h, x, NAME);
    FirstAppend(h, x, EMAIL);
    FirstAppend(h, x, TOOL);
    LastAppend(h, x, PHONE, e.items[PHONE - 1]);
    LastAppend(h, x, LOCATION, e.items[LOCATION - 1]);
    NoteAppend(h, x, e.items[NOTE - 1], e.lastNoteTime);
    EverAppend(h, x, CNAME);
    LeftAppend(h, x);
    TimesAppend(h, x);
  }

  // ---------------------------------------------------------------- what a pass makes of an entry

  predicate Before(limit: Option<Time>, t: Time) {
    limit.Some? && t < limit.value
  }

  /** The times of a pass, as far as it has them. */
  function NoteCheck(p: Pass): Option<Time> {
    match p
    case NotePass(check) => Some(check)
    case FusedPass(_, _, _, note) => Some(note)
    case _ => None
  }

  function ByeCheck(p: Pass): Option<Time> {
    match p
    case ByePass(check) => Some(check)
    case FusedPass(_, bye, _, _) => Some(bye)
    case _ => None
  }

  function GeneralCheck(p: Pass): Option<Time> {
    match p
    case GeneralPass(check) => Some(check)
    case FusedPass(_, _, general, _) => Some(general)
    case _ => None
  }

  function SenderCheck(p: Pass): Option<Time> {
    match p
    case SenderPass(check) => Some(check)
    case FusedPass(sender, _, _, _) => Some(sender)
    case _ => None
  }

  /** A sender mark is lost if no packet came for too long, a note if it is too old; nothing else changes. */
  ghost predicate Aged(p: Pass, e: Entry, f: Entry) {
    && |e.items| == NUMITEMS
    && (f.sender <==> e.sender && !Before(SenderCheck(p), e.stats.timing.lastRtpTime))
    && f.items == (if Before(NoteCheck(p), e.lastNoteTime) then e.items[NOTE - 1 := []] else e.items)
    && f == e.(sender := f.sender, items := f.items)
  }

  lemma OneStays(p: Pass, e: Entry)
    requires |e.items| == NUMITEMS
    ensures After(p, e).Some? <==>
      e.own || !((e.bye && Before(ByeCheck(p), e.byeTime)) || Before(GeneralCheck(p), e.stats.timing.lastMsgTime))
  {
    hide NoteTimedOut, SenderTimedOut, NoteCleared;
  }

  lemma OneAged(p: Pass, e: Entry)
    requires |e.items| == NUMITEMS
    ensures After(p, e).Some? ==> Aged(p, e, After(p, e).value)
  {
    hide ByeTimedOut, TimedOut;
    SameNote(e.items);
    if p.FusedPass? && After(p, e).Some? {
      FusedAged(p, e);
    }
  }

  lemma FusedAged(p: Pass, e: Entry)
    requires |e.items| == NUMITEMS && p.FusedPass? && After(p, e).Some?
    ensures Aged(p, e, After(p, e).value)
  {
    hide ByeTimedOut, TimedOut;
    SameNote(e.items);
  }

  lemma SameNote(items: seq<seq<byte>>)
    requires |items| == NUMITEMS
    ensures items[NOTE - 1] == [] ==> items[NOTE - 1 := []] == items
  {
  }

  // ---------------------------------------------------------------- what an operation makes of an entry

  /** The entry tells the same. */
  predicate TellsSame(e: Entry, f: Entry) {
    && f.ssrc == e.ssrc && f.items == e.items && f.lastNoteTime == e.lastNoteTime && (e.validated ==> f.validated)
    && f.stats.timing.lastMsgTime == e.stats.timing.lastMsgTime && f.bye == e.bye && f.byeTime == e.byeTime
    && f.stats.timing.lastRtpTime == e.stats.timing.lastRtpTime
    && f.probation == e.probation && (f.queue != [] ==> e.queue != [])
  }

  lemma SameTells(e: Entry, f: Entry, h: seq<Saying>)
    requires Tells(e, h) && TellsSame(e, f)
    ensures Tells(f, h)
  {
    hide FirstSaid, LastValue, NoteIs, Left, Ever, WhenHeard, WhenPlayed, WhenGone;
  }

  lemma NewTells(ssrc: uint32, probation: ProbationType)
    ensures Tells(NewEntry(ssrc, probation), []) && Tells(OwnEntry(ssrc, probation), [])
    ensures Tells(AsCsrc(NewEntry(ssrc, probation)), [])
  {
  }

  lemma MessageTells(e: Entry, m: Message, from: Sender, h: seq<Saying>)
    requires Readable(m) && Tells(e, h)
    ensures Tells(WithMessage(Addressed(e, from, false), m), h + SayingOf(m, e.own))
  {
    hide Tells, WithItem;
    TellsItems(e, h);
    if m.Bye? && e.own {
      assert h + [] == h;
      SameTells(e, Addressed(e, from, false), h);
    } else if m.Item? {
      ItemTells(e, Addressed(e, from, false), m.id, m.value, m.time, h);
    } else {
      TellsMore(e, WithMessage(Addressed(e, from, false), m), h, SayingOf(m, e.own)[0]);
    }
  }

  lemma ItemTells(e: Entry, f: Entry, id: nat, value: seq<byte>, t: Time, h: seq<Saying>)
    requires 1 <= id <= NUMITEMS == |e.items| && Tells(e, h) && f == e.(rtcp := f.rtcp)
    ensures Tells(WithItem(f, id, value, t), h + [Said(id, value, t)])
  {
    hide Tells;
    TellsItems(e, h);
    TellsMore(e, WithItem(f, id, value, t), h, Said(id, value, t));
  }

  lemma TellsItems(e: Entry, h: seq<Saying>)
    requires Tells(e, h)
    ensures |e.items| == NUMITEMS && (e.items[CNAME - 1] != [] ==> e.validated)
    ensures e.queue != [] ==> e.validated || e.probation == ProbationStore
  {
    hide LastValue, NoteIs, Left, Ever, WhenHeard, WhenPlayed, WhenGone, FirstSaid;
    assert e.items[CNAME - 1] == FirstSaid(h, CNAME);
    FirstEver(h, CNAME);
  }

  lemma {:induction false} FirstEver(h: seq<Saying>, id: nat)
    ensures FirstSaid(h, id) != [] ==> Ever(h, id)
  {
    if h != [] && !(h[0].Said? && h[0].id == id && h[0].value != []) {
      FirstEver(h[1..], id);
      if i :| 0 <= i < |h[1..]| && h[1..][i].Said? && h[1..][i].id == id {
        assert h[i + 1] == h[1..][i];
      }
    }
  }

  function SayingOf(m: Message, own: bool): seq<Saying> {
    match m
    case Alive(t) => [Heard(t)]
    case Item(id, value, t) => [Said(id, value, t)]
    case Bye(t) => if own then [] else [Gone(t)]
  }

  /** The statistics accept a packet: always, once they have accepted one or if there is no probation. */
  predicate Accepts(e: Entry, a: Arrival) {
    Process(e.stats, a.(own := e.own), !e.validated && e.probation != NoProbation).accept
  }

  function PacketSaying(e: Entry, a: Arrival): Saying {
    if Accepts(e, a) && !e.own then Played(a.time) else Heard(a.time)
  }

  lemma PacketLeaves(e: Entry, p: Incoming, from: Sender)
    ensures
      var f := WithRtp(e, p, from);
      && f.items == e.items && f.lastNoteTime == e.lastNoteTime && f.probation == e.probation
      && f.validated == (e.validated || Accepts(e, p.arrival))
      && f.stats.timing.lastMsgTime == p.arrival.time && f.bye == e.bye && f.byeTime == e.byeTime
      && f.stats.timing.lastRtpTime ==
           (if Accepts(e, p.arrival) && !e.own then p.arrival.time else e.stats.timing.lastRtpTime)
      && (f.queue == e.queue || f.validated || f.probation == ProbationStore)
  {
    hide Enqueue, CountLater, Extend, JitterAfter, AcceptFirst, ProbationAfter;
  }

  lemma PacketTells(e: Entry, p: Incoming, from: Sender, h: seq<Saying>)
    requires Tells(e, h)
    ensures Tells(WithRtp(e, p, from), h + [PacketSaying(e, p.arrival)])
  {
    hide Tells, WithRtp, Accepts;
    TellsItems(e, h);
    PacketLeaves(e, p, from);
    TellsMore(e, WithRtp(e, p, from), h, PacketSaying(e, p.arrival));
  }

  lemma SentTells(e: Entry, now: Time, h: seq<Saying>)
    requires Tells(e, h) && e.own
    ensures Tells(Sent(e, now), h + [Played(now)])
  {
    hide Tells;
    TellsItems(e, h);
    TellsMore(e, Sent(e, now), h, Played(now));
  }

  function DroppedBy(p: Pass, noted: Time): seq<Saying> {
    if Before(NoteCheck(p), noted) then [Dropped] else []
  }

  lemma PassTells(p: Pass, e: Entry, h: seq<Saying>)
    requires Tells(e, h) && |e.items| == NUMITEMS && After(p, e).Some?
    ensures Tells(After(p, e).value, h + DroppedBy(p, WhenNoted(h)))
  {
    hide Tells, After, Before, NoteCheck, WhenNoted;
    NotedTime(e, h);
    TellsItems(e, h);
    OneAged(p, e);
    var f := After(p, e).value;
    if DroppedBy(p, WhenNoted(h)) == [] {
      assert h + [] == h;
      SameTells(e, f, h);
    } else {
      TellsMore(e, f, h, Dropped);
    }
  }

  lemma NotedTime(e: Entry, h: seq<Saying>)
    requires Tells(e, h)
    ensures e.lastNoteTime == WhenNoted(h)
  {
    hide FirstSaid, LastValue, NoteIs, Left, Ever, WhenHeard, WhenPlayed, WhenGone;
    NotedIs(h, e.items[NOTE - 1], e.lastNoteTime);
  }

  // ---------------------------------------------------------------- what an operation makes of the table

  /** The entry of the source, if there is one, tells `h`; if there is none, `h` is empty. */
  ghost predicate TableTells(es: seq<Entry>, ssrc: uint32, h: seq<Saying>) {
    && (forall i | 0 <= i < |es| :: es[i].ssrc == ssrc ==> Tells(es[i], h))
    && ((forall i | 0 <= i < |es| :: es[i].ssrc != ssrc) ==> h == [])
  }

  lemma AddedTells(t: Table, e: Entry, ssrc: uint32, h: seq<Saying>)
    requires TableTells(t.entries, ssrc, h) && !Has(t, e.ssrc) && Tells(e, [])
    ensures TableTells(Added(t, e).entries, ssrc, h)
  {
    hide Tells;
    if e.ssrc == ssrc {
      assert h == [];
    } else {
      assert forall i | 0 <= i < |t.entries| :: Added(t, e).entries[i] == t.entries[i];
    }
  }

  lemma ObtainedTells(t: Table, source: uint32, ssrc: uint32, h: seq<Saying>)
    requires TableTells(t.entries, ssrc, h)
    ensures TableTells(Obtained(t, source).entries, ssrc, h)
    ensures Index(t.entries, source) < |Obtained(t, source).entries|
    ensures Obtained(t, source).entries[Index(t.entries, source)].ssrc == source
    ensures source == ssrc ==> Tells(Obtained(t, source).entries[Index(t.entries, source)], h)
  {
    hide Tells, TableTells;
    if !Has(t, source) {
      NewTells(source, t.probation);
      AddedTells(t, NewEntry(source, t.probation), ssrc, h);
      TableTellsAt(Obtained(t, source).entries, ssrc, h, Index(t.entries, source));
    } else {
      TableTellsAt(t.entries, ssrc, h, Index(t.entries, source));
    }
  }

  lemma TableTellsAt(es: seq<Entry>, ssrc: uint32, h: seq<Saying>, i: nat)
    requires TableTells(es, ssrc, h) && i < |es|
    ensures es[i].ssrc == ssrc ==> Tells(es[i], h)
  {
  }

  /** The entry at `i` changes, in a table without repetition. */
  lemma ChangedTells(es: seq<Entry>, i: nat, f: Entry, ssrc: uint32, h: seq<Saying>, g: seq<Saying>)
    requires SsrcsDistinct(es) && TableTells(es, ssrc, h) && i < |es| && f.ssrc == es[i].ssrc
    requires if f.ssrc == ssrc then Tells(f, g) else g == h
    ensures TableTells(es[i := f], ssrc, g)
  {
    hide Tells;
    assert es[i := f][i] == f;
    forall j | 0 <= j < |es| && j != i
      ensures es[i := f][j] == es[j] && (f.ssrc == ssrc ==> es[j].ssrc != ssrc)
    {
    }
  }

  lemma CsrcTells(t: Table, csrc: uint32, from: Sender, ssrc: uint32, h: seq<Saying>)
    requires TableOk(t) && TableTells(t.entries, ssrc, h)
    ensures TableTells(WithCsrc(t, csrc, from).entries, ssrc, h)
  {
    DistinctSources(t);
    hide Tells, TableTells, Collides, TableOk, SsrcsDistinct, NewEntry;
    var i := Index(t.entries, csrc);
    if i == |t.entries| {
      NewTells(csrc, t.probation);
      NewSsrc(csrc, t.probation);
      AddedTells(t, AsCsrc(NewEntry(csrc, t.probation)), ssrc, h);
    } else if !Collides(t.entries[i].rtp, t.entries[i].rtcp, from) {
      var f := AsCsrc(Addressed(t.entries[i], from, true));
      TableTellsAt(t.entries, ssrc, h, i);
      if f.ssrc == ssrc {
        SameTells(t.entries[i], f, h);
      }
      ChangedTells(t.entries, i, f, ssrc, h, h);
    }
  }

  lemma NewSsrc(ssrc: uint32, probation: ProbationType)
    ensures AsCsrc(NewEntry(ssrc, probation)).ssrc == ssrc && OwnEntry(ssrc, probation).ssrc == ssrc
  {
  }

  lemma {:induction false} CsrcsTell(t: Table, csrcs: seq<uint32>, from: Sender, ssrc: uint32, h: seq<Saying>)
    requires TableOk(t) && TableTells(t.entries, ssrc, h)
    ensures TableTells(WithCsrcs(t, csrcs, from).entries, ssrc, h)
  {
    hide TableTells, TableOk, WithCsrc;
    if csrcs != [] {
      var init := csrcs[..|csrcs| - 1];
      WithCsrcsOk(t, init, from);
      CsrcsTell(t, init, from, ssrc, h);
      CsrcTells(WithCsrcs(t, init, from), csrcs[|csrcs| - 1], from, ssrc, h);
    }
  }

  function EntryOf(t: Table, source: uint32): Entry {
    if Has(t, source) then t.entries[Index(t.entries, source)] else NewEntry(source, t.probation)
  }

  /** A packet that the address rules let in. */
  predicate RtpReaches(t: Table, source: uint32, from: Sender) {
    !Collides(EntryOf(t, source).rtp, EntryOf(t, source).rtcp, from)
  }

  predicate RtcpReaches(t: Table, source: uint32, from: Sender) {
    !Collides(EntryOf(t, source).rtcp, EntryOf(t, source).rtp, from)
  }

  predicate IsOwn(t: Table, source: uint32) {
    Has(t, source) && t.entries[Index(t.entries, source)].own
  }

  lemma ObtainedIs(t: Table, source: uint32)
    ensures Index(t.entries, source) < |Obtained(t, source).entries|
    ensures
      var e := Obtained(t, source).entries[Index(t.entries, source)];
      e == EntryOf(t, source) && (e.own <==> IsOwn(t, source))
  {
  }

  lemma RtpTells(t: Table, p: Incoming, from: Sender, ssrc: uint32, h: seq<Saying>)
    requires TableOk(t) && TableTells(t.entries, ssrc, h)
    ensures
      TableTells(AfterRtp(t, p, from).entries, ssrc,
                 h + if p.ssrc == ssrc && RtpReaches(t, ssrc, from)
                     then [PacketSaying(EntryOf(t, ssrc), p.arrival)] else [])
  {
    hide Tells, TableTells, Collides, TableOk, SsrcsDistinct, NewEntry, WithRtp, WithCsrcs, Index, Has, Obtained, Sound,
      IsActive, EntryOf, PacketSaying;
    assert h + [] == h;
    var i, u := Index(t.entries, p.ssrc), Obtained(t, p.ssrc);
    ObtainedIs(t, p.ssrc);
    ObtainedTells(t, p.ssrc, ssrc, h);
    ObtainedOk(t, p.ssrc);
    ObtainedEntry(t, p.ssrc);
    DistinctSources(u);
    var e := u.entries[i];
    if !Collides(e.rtp, e.rtcp, from) {
      var f := WithRtp(e, p, from);
      WithRtpKeeps(e, p, from);
      if p.ssrc == ssrc {
        PacketTells(e, p, from, h);
      }
      var g := h + if p.ssrc == ssrc then [PacketSaying(e, p.arrival)] else [];
      ChangedTells(u.entries, i, f, ssrc, h, g);
      ChangedOk(u, i, f);
      CsrcsTell(Changed(u, i, f), p.csrcs, from, ssrc, g);
    }
  }

  lemma RtcpTells(t: Table, source: uint32, m: Message, from: Sender, ssrc: uint32, h: seq<Saying>)
    requires TableOk(t) && ItemsReady(t.entries) && Readable(m) && TableTells(t.entries, ssrc, h)
    ensures
      TableTells(AfterRtcp(t, source, m, from).entries, ssrc,
                 h + if source == ssrc && RtcpReaches(t, ssrc, from) then SayingOf(m, IsOwn(t, ssrc)) else [])
  {
    hide Tells, TableTells, Collides, TableOk, SsrcsDistinct, NewEntry, WithMessage, Index, Has, Obtained, Sound,
      IsActive, SayingOf, IsOwn, EntryOf;
    assert h + [] == h;
    var i, u := Index(t.entries, source), Obtained(t, source);
    ObtainedIs(t, source);
    ObtainedTells(t, source, ssrc, h);
    ObtainedOk(t, source);
    ObtainedEntry(t, source);
    DistinctSources(u);
    var e := u.entries[i];
    if !Collides(e.rtcp, e.rtp, from) {
      var f := WithMessage(Addressed(e, from, false), m);
      WithMessageKeeps(e, m, from);
      if source == ssrc {
        MessageTells(e, m, from, h);
      }
      ChangedTells(u.entries, i, f, ssrc, h, h + if source == ssrc then SayingOf(m, IsOwn(t, ssrc)) else []);
    }
  }

  /** Entries that tell the same, one by one. */
  lemma SameTableTells(es: seq<Entry>, fs: seq<Entry>, ssrc: uint32, h: seq<Saying>)
    requires TableTells(es, ssrc, h) && |fs| == |es| && forall i | 0 <= i < |es| :: TellsSame(es[i], fs[i])
    ensures TableTells(fs, ssrc, h)
  {
    hide Tells;
    forall i | 0 <= i < |fs|
      ensures fs[i].ssrc == es[i].ssrc && (fs[i].ssrc == ssrc ==> Tells(fs[i], h))
    {
      if fs[i].ssrc == ssrc {
        SameTells(es[i], fs[i], h);
      }
    }
  }

  lemma TakenTells(t: Table, source: uint32, ssrc: uint32, h: seq<Saying>)
    requires TableTells(t.entries, ssrc, h)
    ensures TableTells(Taken(t, source).entries, ssrc, h)
  {
    hide TableTells;
    SameTableTells(t.entries, Taken(t, source).entries, ssrc, h);
  }

  lemma FlagsTell(t: Table, last: Last, count: nat, ssrc: uint32, h: seq<Saying>)
    requires TableTells(t.entries, ssrc, h)
    ensures TableTells(Marked(last, t.entries, count), ssrc, h) && TableTells(Cleared(t.entries), ssrc, h)
  {
    hide TableTells, PendingOf, Pending;
    SameTableTells(t.entries, Marked(last, t.entries, count), ssrc, h);
    SameTableTells(t.entries, Cleared(t.entries), ssrc, h);
  }

  lemma OwnCreatedTells(t: Table, source: uint32, ssrc: uint32, h: seq<Saying>)
    requires TableTells(t.entries, ssrc, h)
    ensures TableTells(OwnCreated(t, source).entries, ssrc, h)
  {
    hide Tells, TableTells, OwnEntry;
    NewTells(source, t.probation);
    NewSsrc(source, t.probation);
    if OwnIndex(t.entries) == |t.entries| && !Has(t, source) {
      AddedTells(t, OwnEntry(source, t.probation), ssrc, h);
    }
  }

  lemma OwnSentTells(t: Table, now: Time, ssrc: uint32, h: seq<Saying>)
    requires TableOk(t) && TableTells(t.entries, ssrc, h)
    ensures TableTells(OwnSent(t, now).entries, ssrc, h + if IsOwn(t, ssrc) then [Played(now)] else [])
  {
    assert h + [] == h;
    var i := OwnIndex(t.entries);
    OwnIs(t, ssrc);
    DistinctSources(t);
    hide Tells, TableTells, TableOk, SsrcsDistinct, Index, OwnIndex, IsOwn;
    if i < |t.entries| {
      var e := t.entries[i];
      TableTellsAt(t.entries, ssrc, h, i);
      if e.ssrc == ssrc {
        SentTells(e, now, h);
      }
      ChangedTells(t.entries, i, Sent(e, now), ssrc, h, h + if e.ssrc == ssrc then [Played(now)] else []);
    }
  }

  lemma OwnIs(t: Table, ssrc: uint32)
    requires TableOk(t)
    ensures IsOwn(t, ssrc) <==> OwnIndex(t.entries) < |t.entries| && t.entries[OwnIndex(t.entries)].ssrc == ssrc
  {
    var i, k := OwnIndex(t.entries), Index(t.entries, ssrc);
    hide AllSound, CountsAgree;
    if i < |t.entries| && t.entries[i].ssrc == ssrc {
      assert k <= i;
      assert k == i;
    }
    if IsOwn(t, ssrc) {
      assert i <= k;
      assert i == k;
    }
  }

  // ---------------------------------------------------------------- entries that go away

  /** What is left tells `g`, or it is not there. */
  ghost predicate RestTells(es: seq<Entry>, ssrc: uint32, g: seq<Saying>) {
    forall i | 0 <= i < |es| :: es[i].ssrc == ssrc ==> Tells(es[i], g)
  }

  function IfThere(t: Table, ssrc: uint32, g: seq<Saying>): seq<Saying> {
    if Has(t, ssrc) then g else []
  }

  lemma RestIsTable(t: Table, ssrc: uint32, g: seq<Saying>)
    requires RestTells(t.entries, ssrc, g)
    ensures TableTells(t.entries, ssrc, IfThere(t, ssrc, g))
  {
    hide Tells;
    if Has(t, ssrc) {
      assert t.entries[Index(t.entries, ssrc)].ssrc == ssrc;
    } else {
      assert forall i | 0 <= i < |t.entries| :: t.entries[i].ssrc != ssrc;
    }
  }

  lemma TableIsRest(es: seq<Entry>, ssrc: uint32, g: seq<Saying>)
    requires TableTells(es, ssrc, g)
    ensures RestTells(es, ssrc, g)
  {
  }

  lemma OwnDeletedTells(t: Table, ssrc: uint32, h: seq<Saying>)
    requires TableTells(t.entries, ssrc, h)
    ensures TableTells(OwnDeleted(t).entries, ssrc, IfThere(OwnDeleted(t), ssrc, h))
  {
    hide Tells;
    TableIsRest(t.entries, ssrc, h);
    RestIsTable(OwnDeleted(t), ssrc, h);
  }

  lemma {:induction false} SurvivorsTell(p: Pass, es: seq<Entry>, ssrc: uint32, h: seq<Saying>)
    requires ItemsReady(es) && RestTells(es, ssrc, h)
    ensures RestTells(Survivors(p, es), ssrc, h + DroppedBy(p, WhenNoted(h)))
  {
    hide Tells, After, DroppedBy, WhenNoted;
    if es != [] {
      var init, e := es[..|es| - 1], es[|es| - 1];
      SurvivorsTell(p, init, ssrc, h);
      if After(p, e).Some? {
        AfterSsrc(p, e);
        if e.ssrc == ssrc {
          PassTells(p, e, h);
        }
      }
    }
  }

  lemma AfterSsrc(p: Pass, e: Entry)
    requires |e.items| == NUMITEMS && After(p, e).Some?
    ensures After(p, e).value.ssrc == e.ssrc
  {
    hide After;
    OneAged(p, e);
  }

  lemma SweptTells(t: Table, p: Pass, ssrc: uint32, h: seq<Saying>)
    requires ItemsReady(t.entries) && TableTells(t.entries, ssrc, h)
    ensures TableTells(Swept(t, p).entries, ssrc, IfThere(Swept(t, p), ssrc, h + DroppedBy(p, WhenNoted(h))))
  {
    hide RestTells, TableTells, DroppedBy, WhenNoted, Survivors, IfThere;
    TableIsRest(t.entries, ssrc, h);
    SurvivorsTell(p, t.entries, ssrc, h);
    RestIsTable(Swept(t, p), ssrc, h + DroppedBy(p, WhenNoted(h)));
  }

  // ---------------------------------------------------------------- whole runs

  /** What an event says about a source, in the table `t` it comes to, after the sayings `h`. */
  function SaidBy(t: Table, ev: Event, ssrc: uint32, h: seq<Saying>): seq<Saying> {
    match ev
    case RtpCame(p, from) =>
      if p.ssrc == ssrc && RtpReaches(t, ssrc, from) then [PacketSaying(EntryOf(t, ssrc), p.arrival)] else []
    case RtcpCame(source, m, from) =>
      if source == ssrc && RtcpReaches(t, ssrc, from) then SayingOf(m, IsOwn(t, ssrc)) else []
    case OwnPacketSent(now) => if IsOwn(t, ssrc) then [Played(now)] else []
    case PassMade(p) => DroppedBy(p, WhenNoted(h))
    case _ => []
  }

  /** Everything that has reached the entry of a source since it is there. */
  ghost function Sayings(probation: ProbationType, evs: seq<Event>, ssrc: uint32): seq<Saying>
    requires AllReadable(evs)
  {
    if evs == [] then []
    else
      var init := evs[..|evs| - 1];
      var h := Sayings(probation, init, ssrc);
      IfThere(Run(probation, evs), ssrc, h + SaidBy(Run(probation, init), evs[|evs| - 1], ssrc, h))
  }

  lemma StillThere(t: Table, ssrc: uint32, h: seq<Saying>)
    requires TableTells(t.entries, ssrc, h)
    ensures IfThere(t, ssrc, h) == h
  {
    hide Tells;
  }

  lemma StepTells(t: Table, ev: Event, ssrc: uint32, h: seq<Saying>)
    requires TableOk(t) && ItemsReady(t.entries) && EventReadable(ev) && TableTells(t.entries, ssrc, h)
    ensures
      var u := Step(t, ev);
      TableTells(u.entries, ssrc, IfThere(u, ssrc, h + SaidBy(t, ev, ssrc, h)))
  {
    hide TableTells, TableOk, AfterRtp, AfterRtcp, OwnCreated, OwnDeleted, OwnSent, Taken, Swept, Marked, Cleared,
      ItemsReady, RtpReaches, RtcpReaches, EntryOf, PacketSaying, SayingOf, IsOwn, DroppedBy, IfThere, WhenNoted;
    assert h + [] == h;
    var g := h + SaidBy(t, ev, ssrc, h);
    match ev {
      case RtpCame(p, from) => RtpTells(t, p, from, ssrc, h);
      case RtcpCame(source, m, from) => RtcpTells(t, source, m, from, ssrc, h);
      case OwnSsrcCreated(source) => OwnCreatedTells(t, source, ssrc, h);
      case OwnSsrcDeleted => OwnDeletedTells(t, ssrc, h);
      case OwnPacketSent(now) => OwnSentTells(t, now, ssrc, h);
      case PacketTaken(source) => TakenTells(t, source, ssrc, h);
      case PassMade(p) => SweptTells(t, p, ssrc, h);
      case ReportsMade(last, count) => FlagsTell(t, last, count, ssrc, h);
      case FlagsCleared => FlagsTell(t, Last(true, 0.0), 0, ssrc, h);
      case TableCleared => EmptyTells(t.probation, ssrc, h);
    }
    if !ev.PassMade? && !ev.OwnSsrcDeleted? && !ev.TableCleared? {
      StillThere(Step(t, ev), ssrc, g);
    }
  }

  lemma EmptyTells(probation: ProbationType, ssrc: uint32, h: seq<Saying>)
    ensures TableTells(Recounted([], probation).entries, ssrc, IfThere(Recounted([], probation), ssrc, h))
    ensures TableTells([], ssrc, [])
  {
  }

  lemma {:induction false} TablesTell(probation: ProbationType, evs: seq<Event>, ssrc: uint32)
    requires AllReadable(evs)
    ensures TableTells(Run(probation, evs).entries, ssrc, Sayings(probation, evs, ssrc))
  {
    hide Step, TableTells, TableOk, SaidBy, IfThere;
    if evs == [] {
      EmptyTells(probation, ssrc, []);
    } else {
      var init := evs[..|evs| - 1];
      TablesTell(probation, init, ssrc);
      StepTells(Run(probation, init), evs[|evs| - 1], ssrc, Sayings(probation, init, ssrc));
    }
  }

  /** In every run each entry has the first nonempty CNAME, name, e-mail and tool that reached it since it
      is there, the last phone and location, and the last note unless it was dropped since; it knows when
      it was heard last and played last, and whether and when a BYE came. */
  lemma EntriesTell(probation: ProbationType, evs: seq<Event>, i: nat)
    requires AllReadable(evs) && i < |Run(probation, evs).entries|
    ensures var e := Run(probation, evs).entries[i]; Tells(e, Sayings(probation, evs, e.ssrc))
  {
    hide Run, Tells, Sayings;
    TablesTell(probation, evs, Run(probation, evs).entries[i].ssrc);
  }

  /** A CNAME collides with that of a source exactly if it differs from the first nonempty one. */
  lemma CnameCollidesExactly(probation: ProbationType, evs: seq<Event>, i: nat, id: nat, value: seq<byte>)
    requires AllReadable(evs) && i < |Run(probation, evs).entries|
    ensures
      var e := Run(probation, evs).entries[i];
      var first := FirstSaid(Sayings(probation, evs, e.ssrc), CNAME);
      |e.items| == NUMITEMS && (CnameCollides(e, id, value) <==> id == CNAME && first != [] && value != first)
  {
    hide Run, Sayings, FirstSaid, LastValue, NoteIs, Left, Ever, WhenHeard, WhenPlayed, WhenGone;
    EntriesTell(probation, evs, i);
  }

  // ---------------------------------------------------------------- timeouts

  /** We stay, and so does every source whose BYE is not too old and that was heard lately. */
  predicate Stays(p: Pass, e: Entry) {
    e.own || !((e.bye && Before(ByeCheck(p), e.byeTime)) || Before(GeneralCheck(p), e.stats.timing.lastMsgTime))
  }

  /** What is left of the entries `es`: those at `kept`, in their order, all but their sender marks and
      notes as they were. */
  ghost predicate Kept(p: Pass, es: seq<Entry>, kept: seq<nat>, r: seq<Entry>) {
    && |r| == |kept| && (forall k | 0 <= k < |kept| :: kept[k] < |es|)
    && (forall j, k | 0 <= j < k < |kept| :: kept[j] < kept[k])
    && (forall i | 0 <= i < |es| :: i in kept <==> Stays(p, es[i]))
    && (forall k | 0 <= k < |kept| :: Aged(p, es[kept[k]], r[k]))
  }

  /** A pass deletes exactly the entries other than ours whose BYE is too old or that have been silent for
      too long; it keeps the others in their order, and of each all but an outdated sender mark and an
      outdated note. */
  lemma {:induction false} SweepExactly(p: Pass, es: seq<Entry>) returns (kept: seq<nat>)
    requires ItemsReady(es)
    ensures Kept(p, es, kept, Survivors(p, es))
  {
    hide After, Aged, Before;
    if es == [] {
      kept := [];
    } else {
      var n := |es| - 1;
      kept := SweepExactly(p, es[..n]);
      OneStays(p, es[n]);
    OneAged(p, es[n]);
      KeptMore(p, es, kept, Survivors(p, es[..n]));
      if After(p, es[n]).Some? {
        kept := kept + [n];
      }
    }
  }

  lemma KeptMore(p: Pass, es: seq<Entry>, kept: seq<nat>, r: seq<Entry>)
    requires es != [] && |es[|es| - 1].items| == NUMITEMS && Kept(p, es[..|es| - 1], kept, r)
    ensures
      var n := |es| - 1;
      var last := After(p, es[n]);
      if last.Some? then Kept(p, es, kept + [n], r + [last.value]) else Kept(p, es, kept, r)
  {
    hide After, Aged, Before, Kept;
    OneStays(p, es[|es| - 1]);
    OneAged(p, es[|es| - 1]);
    if After(p, es[|es| - 1]).Some? {
      OneMoreKept(p, es, kept, r, After(p, es[|es| - 1]).value);
    } else {
      OneLess(p, es, kept, r);
    }
  }

  lemma OneMoreKept(p: Pass, es: seq<Entry>, kept: seq<nat>, r: seq<Entry>, f: Entry)
    requires es != [] && Kept(p, es[..|es| - 1], kept, r) && Stays(p, es[|es| - 1]) && Aged(p, es[|es| - 1], f)
    ensures Kept(p, es, kept + [|es| - 1], r + [f])
  {
    hide Aged, Stays;
    var n := |es| - 1;
    var more := kept + [n];
    assert forall i | 0 <= i < n :: es[..n][i] == es[i];
    forall i | 0 <= i < |es|
      ensures i in more <==> i in kept || i == n
    {
      assert more[|kept|] == n;
    }
  }

  lemma OneLess(p: Pass, es: seq<Entry>, kept: seq<nat>, r: seq<Entry>)
    requires es != [] && Kept(p, es[..|es| - 1], kept, r) && !Stays(p, es[|es| - 1])
    ensures Kept(p, es, kept, r)
  {
    hide Aged, Stays;
    var n := |es| - 1;
    assert forall i | 0 <= i < n :: es[..n][i] == es[i];
    assert n !in kept;
  }

  /** In every run a pass takes a source away exactly if it is not ours and its BYE came too long ago or it
      has not been heard for too long. */
  lemma TakenAwayExactly(probation: ProbationType, evs: seq<Event>, p: Pass, i: nat)
    requires AllReadable(evs) && i < |Run(probation, evs).entries|
    ensures
      var e := Run(probation, evs).entries[i];
      var h := Sayings(probation, evs, e.ssrc);
      |e.items| == NUMITEMS &&
      (After(p, e) == None <==>
         !e.own && ((Left(h) && Before(ByeCheck(p), WhenGone(h))) || Before(GeneralCheck(p), WhenHeard(h))))
  {
    hide Run, Sayings, FirstSaid, LastValue, NoteIs, Left, Ever, WhenHeard, WhenPlayed, WhenGone, After, Before;
    EntriesTell(probation, evs, i);
    OneStays(p, Run(probation, evs).entries[i]);
  }
}
