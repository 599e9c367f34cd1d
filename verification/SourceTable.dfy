/** The source table as a value: what every operation of `RTPSources` does to its entries, in the
    order of the table, and to its three cached counts. */
module SourceTable {
  import opened Bytes
  import opened PacketQueue
  import opened SourceStats
  import opened SourceData

  /** `silent` is history, not a field of the program: how many existing entries a CSRC list made
      active since the counts were last recomputed. */
  datatype Table = Table(entries: seq<Entry>, total: int, senders: int, active: int,
                         silent: int, probation: ProbationType)

  function Bit(b: bool): int {
    if b then 1 else 0
  }

  /** Where a source stands; the length of the table if it is not there. */
  function Index(es: seq<Entry>, ssrc: uint32): (i: nat)
    ensures i <= |es| && (i < |es| ==> es[i].ssrc == ssrc)
    ensures forall j | 0 <= j < i :: es[j].ssrc != ssrc
  {
    if es == [] || es[0].ssrc == ssrc then 0 else 1 + Index(es[1..], ssrc)
  }

  predicate Has(t: Table, ssrc: uint32) {
    Index(t.entries, ssrc) < |t.entries|
  }

  function OwnIndex(es: seq<Entry>): (i: nat)
    ensures i <= |es| && (i < |es| ==> es[i].own)
    ensures forall j | 0 <= j < i :: !es[j].own
  {
    if es == [] || es[0].own then 0 else 1 + OwnIndex(es[1..])
  }

  function CountSenders(es: seq<Entry>): nat {
    if es == [] then 0 else CountSenders(es[1..]) + Bit(es[0].sender)
  }

  function CountActive(es: seq<Entry>): nat {
    if es == [] then 0 else CountActive(es[1..]) + Bit(IsActive(es[0]))
  }

  /** The table with a new entry at its end. */
  function Added(t: Table, e: Entry): Table {
    t.(entries := t.entries + [e], total := t.total + 1,
       senders := t.senders + Bit(e.sender), active := t.active + Bit(IsActive(e)))
  }

  /** The table with another entry at place `i`. */
  function WithEntry(t: Table, i: nat, e: Entry): Table
    requires i < |t.entries|
  {
    t.(entries := t.entries[i := e])
  }

  /** The table with entry `i` changed, and the counts following the change. */
  function Changed(t: Table, i: nat, e: Entry): Table
    requires i < |t.entries|
  {
    t.(entries := t.entries[i := e],
       senders := t.senders + Bit(e.sender) - Bit(t.entries[i].sender),
       active := t.active + Bit(IsActive(e)) - Bit(IsActive(t.entries[i])))
  }

  function Obtained(t: Table, ssrc: uint32): Table {
    if Has(t, ssrc) then t else Added(t, NewEntry(ssrc, t.probation))
  }

  // ---------------------------------------------------------------- packets

  /** An RTP packet handed to the table. */
  datatype Incoming = Incoming(ssrc: uint32, csrcs: seq<uint32>, arrival: Arrival, data: seq<byte>)

  /** What one chunk, report or BYE of an RTCP packet says about a source: that it is alive, one of
      its SDES items, or that it leaves. */
  datatype Message = Alive(time: Time) | Item(id: nat, value: seq<byte>, time: Time) | Bye(time: Time)

  predicate Readable(m: Message) {
    m.Item? ==> 1 <= m.id <= NUMITEMS
  }

  function AsCsrc(e: Entry): Entry {
    e.(csrc := true, validated := true)
  }

  /** One contributing source. An entry that exists already becomes active without being counted. */
  function WithCsrc(t: Table, csrc: uint32, from: Sender): Table {
    var i := Index(t.entries, csrc);
    if i == |t.entries| then Added(t, AsCsrc(NewEntry(csrc, t.probation)))
    else
      var e := t.entries[i];
      if Collides(e.rtp, e.rtcp, from) then t
      else
        var f := AsCsrc(Addressed(e, from, true));
        t.(entries := t.entries[i := f], silent := t.silent + Bit(IsActive(f)) - Bit(IsActive(e)))
  }

  function WithCsrcs(t: Table, csrcs: seq<uint32>, from: Sender): Table {
    if csrcs == [] then t
    else WithCsrc(WithCsrcs(t, csrcs[..|csrcs| - 1], from), csrcs[|csrcs| - 1], from)
  }

  /** The entry of the sender after an RTP packet that does not collide. */
  function WithRtp(e: Entry, p: Incoming, from: Sender): Entry {
    WithPacket(Addressed(e, from, true), p.arrival, p.data)
  }

  function AfterRtp(t: Table, p: Incoming, from: Sender): Table {
    var i, u := Index(t.entries, p.ssrc), Obtained(t, p.ssrc);
    var e := u.entries[i];
    if Collides(e.rtp, e.rtcp, from) then t
    else
      var f := WithRtp(e, p, from);
      if f.validated then WithCsrcs(Changed(u, i, f), p.csrcs, from) else Changed(u, i, f)
  }

  /** A BYE for our own entry is ignored. */
  function WithMessage(e: Entry, m: Message): Entry
    requires Readable(m) && |e.items| == NUMITEMS
  {
    match m
    case Alive(t) => Touched(e, t)
    case Item(id, value, t) => WithItem(e, id, value, t)
    case Bye(t) => if e.own then e else SaidBye(e, t)
  }

  function AfterRtcp(t: Table, ssrc: uint32, m: Message, from: Sender): Table
    requires Readable(m) && forall i | 0 <= i < |t.entries| :: |t.entries[i].items| == NUMITEMS
  {
    var i, u := Index(t.entries, ssrc), Obtained(t, ssrc);
    var e := u.entries[i];
    if Collides(e.rtcp, e.rtp, from) then t else Changed(u, i, WithMessage(Addressed(e, from, false), m))
  }

  // ---------------------------------------------------------------- our own entry

  function OwnEntry(ssrc: uint32, probation: ProbationType): Entry {
    NewEntry(ssrc, probation).(own := true, validated := true, rtp := Set(None), rtcp := Set(None))
  }

  /** Refused if there is an own entry already or the identifier is taken. */
  function OwnCreated(t: Table, ssrc: uint32): Table {
    if OwnIndex(t.entries) < |t.entries| || Has(t, ssrc) then t else Added(t, OwnEntry(ssrc, t.probation))
  }

  function Removed(t: Table, i: nat): Table
    requires i < |t.entries|
  {
    t.(entries := t.entries[..i] + t.entries[i + 1..], total := t.total - 1,
       senders := t.senders - Bit(t.entries[i].sender), active := t.active - Bit(IsActive(t.entries[i])))
  }

  function OwnDeleted(t: Table): Table {
    var i := OwnIndex(t.entries);
    if i == |t.entries| then t else Removed(t, i)
  }

  function OwnSent(t: Table, now: Time): Table {
    var i := OwnIndex(t.entries);
    if i == |t.entries| then t else Changed(t, i, Sent(t.entries[i], now))
  }

  // ---------------------------------------------------------------- timeouts

  /** The passes over the table, each with the times before which something has timed out. */
  datatype Pass =
    | NotePass(check: Time)
    | ByePass(check: Time)
    | GeneralPass(check: Time)
    | SenderPass(check: Time)
    | FusedPass(senderCheck: Time, byeCheck: Time, generalCheck: Time, noteCheck: Time)

  predicate NoteTimedOut(e: Entry, check: Time)
    requires |e.items| == NUMITEMS
  {
    e.items[NOTE - 1] != [] && check > e.lastNoteTime
  }

  predicate ByeTimedOut(e: Entry, check: Time) {
    e.bye && !e.own && check > e.byeTime
  }

  predicate TimedOut(e: Entry, check: Time) {
    !e.own && e.stats.timing.lastMsgTime < check
  }

  predicate SenderTimedOut(e: Entry, check: Time) {
    e.sender && e.stats.timing.lastRtpTime < check
  }

  /** What a pass leaves of an entry, None if it deletes it. */
  function After(p: Pass, e: Entry): Option<Entry>
    requires |e.items| == NUMITEMS
  {
    match p
    case NotePass(check) => Some(if NoteTimedOut(e, check) then NoteCleared(e) else e)
    case ByePass(check) => if ByeTimedOut(e, check) then None else Some(e)
    case GeneralPass(check) => if TimedOut(e, check) then None else Some(e)
    case SenderPass(check) => Some(if SenderTimedOut(e, check) then e.(sender := false) else e)
    case FusedPass(sender, bye, general, note) =>
      if ByeTimedOut(e, bye) || TimedOut(e, general) then None
      else
        var f := if NoteTimedOut(e, note) then NoteCleared(e) else e;
        Some(if SenderTimedOut(e, sender) then f.(sender := false) else f)
  }

  ghost predicate ItemsReady(es: seq<Entry>) {
    forall i | 0 <= i < |es| :: |es[i].items| == NUMITEMS
  }

  ghost function Survivors(p: Pass, es: seq<Entry>): (r: seq<Entry>)
    requires ItemsReady(es)
    ensures ItemsReady(r)
  {
    if es == [] then []
    else
      var rest, last := Survivors(p, es[..|es| - 1]), After(p, es[|es| - 1]);
      if last == None then rest else rest + [last.value]
  }

  /** Every pass counts afresh what it leaves. */
  ghost function Recounted(es: seq<Entry>, probation: ProbationType): Table {
    Table(es, |es|, CountSenders(es), CountActive(es), 0, probation)
  }

  ghost function Swept(t: Table, p: Pass): Table
    requires ItemsReady(t.entries)
  {
    Recounted(Survivors(p, t.entries), t.probation)
  }

  // ---------------------------------------------------------------- one pass for four

  /** The four passes in turn on one entry. */
  ghost function InTurn(e: Entry, sender: Time, bye: Time, general: Time, note: Time): Option<Entry>
    requires |e.items| == NUMITEMS
  {
    var a := After(NotePass(note), e).value;
    var b := After(ByePass(bye), a);
    if b == None then None else
    var c := After(GeneralPass(general), b.value);
    if c == None then None else After(SenderPass(sender), c.value)
  }

  lemma FusedOnEntry(e: Entry, sender: Time, bye: Time, general: Time, note: Time)
    requires |e.items| == NUMITEMS
    ensures After(FusedPass(sender, bye, general, note), e) == InTurn(e, sender, bye, general, note)
  {
  }

  lemma SurvivorsOfLast(p: Pass, es: seq<Entry>, e: Entry)
    requires ItemsReady(es + [e])
    ensures ItemsReady(es) && |e.items| == NUMITEMS
    ensures Survivors(p, es + [e]) == Survivors(p, es) + (if After(p, e) == None then [] else [After(p, e).value])
  {
    assert (es + [e])[|es|] == e;
    assert (es + [e])[..|es|] == es;
    assert forall i | 0 <= i < |es| :: es[i] == (es + [e])[i];
  }

  /** The entries one fused pass leaves are those the four passes leave one after the other. */
  lemma {:induction false} FusedSurvivors(es: seq<Entry>, sender: Time, bye: Time, general: Time, note: Time)
    requires ItemsReady(es)
    ensures Survivors(FusedPass(sender, bye, general, note), es)
         == Survivors(SenderPass(sender), Survivors(GeneralPass(general),
              Survivors(ByePass(bye), Survivors(NotePass(note), es))))
  {
    if es == [] {
    } else {
      var init, e := es[..|es| - 1], es[|es| - 1];
      FusedSurvivors(init, sender, bye, general, note);
      FusedOnEntry(e, sender, bye, general, note);
      assert es == init + [e];
      SurvivorsOfLast(FusedPass(sender, bye, general, note), init, e);
      SurvivorsOfLast(NotePass(note), init, e);
      var a := After(NotePass(note), e).value;
      var s1 := Survivors(NotePass(note), init);
      assert Survivors(NotePass(note), es) == s1 + [a];
      SurvivorsOfLast(ByePass(bye), s1, a);
      var s2 := Survivors(ByePass(bye), s1);
      if After(ByePass(bye), a) == None {
        assert s2 + [] == s2;
      } else {
        SurvivorsOfLast(GeneralPass(general), s2, a);
        var s3 := Survivors(GeneralPass(general), s2);
        if After(GeneralPass(general), a) == None {
          assert s3 + [] == s3;
        } else {
          SurvivorsOfLast(SenderPass(sender), s3, a);
        }
      }
    }
  }

  /** `MultipleTimeouts` leaves what `NoteTimeout`, `BYETimeout`, `Timeout` and `SenderTimeout`
      leave in turn: entries, order, flags, notes and counts. */
  lemma FusedIsFourInTurn(t: Table, sender: Time, bye: Time, general: Time, note: Time)
    requires ItemsReady(t.entries)
    ensures Swept(t, FusedPass(sender, bye, general, note))
         == Swept(Swept(Swept(Swept(t, NotePass(note)), ByePass(bye)), GeneralPass(general)), SenderPass(sender))
  {
    FusedSurvivors(t.entries, sender, bye, general, note);
  }

  // ---------------------------------------------------------------- one step of a pass

  /** A pass that has dealt with the first `k` entries: what it left of them stands before `pos`. */
  ghost predicate Sweeping(p: Pass, es: seq<Entry>, k: nat, now: seq<Entry>, pos: nat)
    requires ItemsReady(es)
  {
    && k <= |es| && pos <= |now| && ItemsReady(es[..k])
    && now[..pos] == Survivors(p, es[..k]) && now[pos..] == es[k..]
  }

  lemma SweepNext(p: Pass, es: seq<Entry>, k: nat, now: seq<Entry>, pos: nat)
    requires ItemsReady(es) && Sweeping(p, es, k, now, pos) && k < |es|
    ensures pos < |now| && now[pos] == es[k]
  {
    assert now[pos..][0] == es[k..][0];
  }

  lemma SweepKeeps(p: Pass, es: seq<Entry>, k: nat, now: seq<Entry>, pos: nat, f: Entry)
    requires ItemsReady(es) && Sweeping(p, es, k, now, pos) && k < |es|
    requires After(p, es[k]) == Some(f)
    ensures pos < |now| && Sweeping(p, es, k + 1, now[pos := f], pos + 1)
  {
    SweepNext(p, es, k, now, pos);
    hide After, Survivors;
    assert es[..k + 1] == es[..k] + [es[k]];
    SurvivorsOfLast(p, es[..k], es[k]);
    assert now[pos := f][..pos + 1] == now[..pos] + [f];
    assert now[pos := f][pos + 1..] == now[pos..][1..];
    assert es[k + 1..] == es[k..][1..];
  }

  lemma SweepDrops(p: Pass, es: seq<Entry>, k: nat, now: seq<Entry>, pos: nat)
    requires ItemsReady(es) && Sweeping(p, es, k, now, pos) && k < |es|
    requires After(p, es[k]) == None
    ensures pos < |now| && Sweeping(p, es, k + 1, now[..pos] + now[pos + 1..], pos)
  {
    SweepNext(p, es, k, now, pos);
    hide After, Survivors;
    assert es[..k + 1] == es[..k] + [es[k]];
    SurvivorsOfLast(p, es[..k], es[k]);
    var r := now[..pos] + now[pos + 1..];
    assert r[..pos] == now[..pos];
    assert r[pos..] == now[pos..][1..];
    assert es[k + 1..] == es[k..][1..];
  }

  lemma SweepDone(p: Pass, es: seq<Entry>, now: seq<Entry>, pos: nat)
    requires ItemsReady(es) && Sweeping(p, es, |es|, now, pos)
    ensures pos == |now| && now == Survivors(p, es)
  {
    assert es[..|es|] == es;
    assert now[pos..] == [];
    assert now[..pos] == now;
  }
}
