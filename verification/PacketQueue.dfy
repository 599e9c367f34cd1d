/** The queue of received packets one source keeps: rtpinternalsourcedata.cpp and rtpsourcedata.h. */
module PacketQueue {
  import opened Bytes

  const MAXPROBATIONPACKETS: nat := 32

  /** A packet with the number the statistics gave it. */
  datatype Packet = Packet(seqNr: uint32, data: seq<byte>)

  ghost predicate Increasing(q: seq<Packet>) {
    forall i, j | 0 <= i < j < |q| :: q[i].seqNr < q[j].seqNr
  }

  ghost predicate Holds(q: seq<Packet>, n: uint32) {
    exists i :: 0 <= i < |q| && q[i].seqNr == n
  }

  /** How many packets at the front come before number `n`. */
  function Before(q: seq<Packet>, n: uint32): (i: nat)
    ensures i <= |q| && (i < |q| ==> q[i].seqNr >= n)
    ensures forall j | 0 <= j < i :: q[j].seqNr < n
  {
    if q == [] || q[0].seqNr >= n then 0 else 1 + Before(q[1..], n)
  }

  /** The packet in its place, unless its number is there already. */
  function Insert(q: seq<Packet>, p: Packet): seq<Packet> {
    var i := Before(q, p.seqNr);
    if i < |q| && q[i].seqNr == p.seqNr then q else q[..i] + [p] + q[i..]
  }

  /** A source that is not validated gives up its lowest packet once it holds the maximum. */
  function Trim(q: seq<Packet>, validated: bool): seq<Packet> {
    if !validated && |q| == MAXPROBATIONPACKETS then q[1..] else q
  }

  function Enqueue(q: seq<Packet>, p: Packet, validated: bool): seq<Packet> {
    Insert(Trim(q, validated), p)
  }

  /** `Before` is the only place that fits, so the search from the back finds it too. */
  lemma InsertHere(q: seq<Packet>, p: Packet, i: nat)
    requires Increasing(q) && i <= |q|
    requires i > 0 ==> q[i - 1].seqNr <= p.seqNr
    requires forall j | i <= j < |q| :: q[j].seqNr > p.seqNr
    ensures
      Insert(q, p) == if i > 0 && q[i - 1].seqNr == p.seqNr then q else q[..i] + [p] + q[i..]
  {
  }

  /** Inserting keeps the queue strictly increasing and keeps every packet; the packet itself gets in
      exactly if its number was not there. */
  lemma InsertSound(q: seq<Packet>, p: Packet)
    requires Increasing(q)
    ensures Increasing(Insert(q, p))
    ensures forall x :: x in Insert(q, p) <==> x in q || (x == p && !Holds(q, p.seqNr))
    ensures |Insert(q, p)| == |q| + if Holds(q, p.seqNr) then 0 else 1
  {
    hide Insert, Before;
    var i := Before(q, p.seqNr);
    HoldsAt(q, p.seqNr, i);
    InsertIs(q, p);
    if Holds(q, p.seqNr) {
      assert p.seqNr == q[i].seqNr;
    } else {
      assert q == q[..i] + q[i..];
      PutKeepsOrder(q, p, i);
    }
  }

  lemma InsertIs(q: seq<Packet>, p: Packet)
    ensures
      var i := Before(q, p.seqNr);
      Insert(q, p) == if i < |q| && q[i].seqNr == p.seqNr then q else q[..i] + [p] + q[i..]
  {
  }

  lemma HoldsAt(q: seq<Packet>, n: uint32, i: nat)
    requires Increasing(q) && i <= |q| && (i < |q| ==> q[i].seqNr >= n)
    requires forall j | 0 <= j < i :: q[j].seqNr < n
    ensures Holds(q, n) <==> i < |q| && q[i].seqNr == n
  {
  }

  lemma PutKeepsOrder(q: seq<Packet>, p: Packet, i: nat)
    requires Increasing(q) && i <= |q|
    requires forall j | 0 <= j < i :: q[j].seqNr < p.seqNr
    requires forall j | i <= j < |q| :: q[j].seqNr > p.seqNr
    ensures Increasing(q[..i] + [p] + q[i..])
    ensures forall x :: x in q[..i] + [p] + q[i..] <==> x in q || x == p
  {
    var r := q[..i] + [p] + q[i..];
    assert forall j | 0 <= j < |r| :: r[j] == if j < i then q[j] else if j == i then p else q[j - 1];
    assert q == q[..i] + q[i..];
  }

  lemma HoldsMember(q: seq<Packet>, n: uint32)
    ensures Holds(q, n) <==> exists x :: x in q && x.seqNr == n
  {
    if Holds(q, n) {
      var i :| 0 <= i < |q| && q[i].seqNr == n;
      assert q[i] in q;
    }
  }

  /** While the source is not validated the queue never grows past the maximum. */
  lemma EnqueueBounded(q: seq<Packet>, p: Packet)
    requires Increasing(q) && |q| <= MAXPROBATIONPACKETS
    ensures Increasing(Enqueue(q, p, false)) && 0 < |Enqueue(q, p, false)| <= MAXPROBATIONPACKETS
  {
    InsertSound(Trim(q, false), p);
  }

  // ---------------------------------------------------------------- whole runs

  /** The queue after the packets `ps` arrive, with nothing taken out in between. */
  function Fill(q: seq<Packet>, ps: seq<Packet>, validated: bool): seq<Packet>
    decreases |ps|
  {
    if ps == [] then q else Fill(Enqueue(q, ps[0], validated), ps[1..], validated)
  }

  lemma InsertHolds(q: seq<Packet>, p: Packet, n: uint32)
    requires Increasing(q)
    ensures Holds(Insert(q, p), n) <==> Holds(q, n) || n == p.seqNr
  {
    InsertSound(q, p);
    HoldsMember(q, n);
    HoldsMember(q, p.seqNr);
    HoldsMember(Insert(q, p), n);
    hide Insert, Holds;
    if n == p.seqNr && !Holds(q, n) {
      assert p in Insert(q, p);
    }
  }

  ghost predicate UpTo(q: seq<Packet>, top: uint32) {
    forall i | 0 <= i < |q| :: q[i].seqNr <= top
  }

  lemma HoldsAtEnd(q: seq<Packet>, top: uint32)
    requires Increasing(q) && UpTo(q, top)
    ensures Holds(q, top) <==> q != [] && q[|q| - 1].seqNr == top
  {
    if i :| 0 <= i < |q| && q[i].seqNr == top {
      if i < |q| - 1 {
        assert q[i].seqNr < q[i + 1].seqNr;
      }
    }
  }

  /** One arrival under probation: numbers stay up to `top`, and `top` itself is not given up. */
  lemma EnqueueTop(q: seq<Packet>, p: Packet, top: uint32)
    requires Increasing(q) && UpTo(q, top) && p.seqNr <= top
    ensures UpTo(Enqueue(q, p, false), top)
    ensures Holds(Enqueue(q, p, false), top) <==> Holds(q, top) || p.seqNr == top
  {
    var t := Trim(q, false);
    HoldsAtEnd(q, top);
    HoldsAtEnd(t, top);
    InsertHolds(t, p, top);
    InsertSound(t, p);
    hide Insert, Holds;
    var e := Insert(t, p);
    assert forall i | 0 <= i < |e| :: e[i] in e;
  }

  lemma HoldsTail(ps: seq<Packet>, n: uint32)
    requires ps != []
    ensures Holds(ps, n) <==> ps[0].seqNr == n || Holds(ps[1..], n)
  {
    if k :| 0 <= k < |ps| && ps[k].seqNr == n {
      assert k > 0 ==> ps[1..][k - 1].seqNr == n;
    }
  }

  /** Under probation every run leaves a sorted queue of at most 32 packets, and the highest number
      that ever came is never the one given up. */
  lemma {:induction false} FillBounded(q: seq<Packet>, ps: seq<Packet>, top: uint32)
    requires Increasing(q) && |q| <= MAXPROBATIONPACKETS && UpTo(q, top) && UpTo(ps, top)
    ensures Increasing(Fill(q, ps, false)) && |Fill(q, ps, false)| <= MAXPROBATIONPACKETS
    ensures UpTo(Fill(q, ps, false), top)
    ensures Holds(Fill(q, ps, false), top) <==> Holds(q, top) || Holds(ps, top)
    decreases |ps|
  {
    if ps == [] {
      assert !Holds(ps, top);
    } else {
      EnqueueBounded(q, ps[0]);
      EnqueueTop(q, ps[0], top);
      HoldsTail(ps, top);
      hide Enqueue, Increasing, Holds;
      FillBounded(Enqueue(q, ps[0], false), ps[1..], top);
    }
  }

  /** The packet at `k` is the first one to bring its number. */
  ghost predicate ComesFirst(q: seq<Packet>, ps: seq<Packet>, k: int) {
    0 <= k < |ps| && !Holds(q, ps[k].seqNr) && forall j | 0 <= j < k :: ps[j].seqNr != ps[k].seqNr
  }

  ghost predicate FirstOfItsNumber(q: seq<Packet>, ps: seq<Packet>, x: Packet) {
    exists k :: ComesFirst(q, ps, k) && ps[k] == x
  }

  lemma ComesFirstLater(q: seq<Packet>, ps: seq<Packet>, k: nat)
    requires Increasing(q) && ps != []
    ensures ComesFirst(Insert(q, ps[0]), ps[1..], k) <==> ComesFirst(q, ps, k + 1)
  {
    var rest := ps[1..];
    if k < |rest| {
      InsertHolds(q, ps[0], rest[k].seqNr);
      hide Insert, Holds;
      assert rest[k] == ps[k + 1];
      assert forall j | 0 <= j < k :: rest[j] == ps[j + 1];
      assert forall j | 0 < j < k + 1 :: rest[j - 1] == ps[j];
    }
  }

  lemma FirstLater(q: seq<Packet>, ps: seq<Packet>, x: Packet)
    requires Increasing(q) && ps != []
    ensures FirstOfItsNumber(q, ps, x)
      <==> FirstOfItsNumber(Insert(q, ps[0]), ps[1..], x) || (x == ps[0] && !Holds(q, x.seqNr))
  {
    var e, rest := Insert(q, ps[0]), ps[1..];
    if k :| ComesFirst(e, rest, k) && rest[k] == x {
      ComesFirstLater(q, ps, k);
      assert ComesFirst(q, ps, k + 1) && ps[k + 1] == x;
    }
    if k :| ComesFirst(q, ps, k) && ps[k] == x {
      if k > 0 {
        ComesFirstLater(q, ps, k - 1);
        assert ComesFirst(e, rest, k - 1) && rest[k - 1] == x;
      }
    }
    if x == ps[0] && !Holds(q, x.seqNr) {
      assert ComesFirst(q, ps, 0);
    }
  }

  /** A validated source keeps, in order, exactly the first packet of every number that came. */
  lemma {:induction false} FillContent(q: seq<Packet>, ps: seq<Packet>, x: Packet)
    requires Increasing(q)
    ensures Increasing(Fill(q, ps, true))
    ensures x in Fill(q, ps, true) <==> x in q || FirstOfItsNumber(q, ps, x)
    decreases |ps|
  {
    if ps == [] {
    } else {
      assert Enqueue(q, ps[0], true) == Insert(q, ps[0]);
      InsertSound(q, ps[0]);
      FirstLater(q, ps, x);
      hide FirstOfItsNumber, Insert, Holds, Increasing, Enqueue;
      FillContent(Insert(q, ps[0]), ps[1..], x);
    }
  }

  lemma EmptyMeansNothingIn(q: seq<Packet>)
    ensures q == [] <==> forall x :: x !in q
  {
    if q != [] {
      assert q[0] in q;
    }
  }

  /** Two strictly increasing queues with the same packets are the same queue. */
  lemma {:induction false} IncreasingUnique(q: seq<Packet>, r: seq<Packet>)
    requires Increasing(q) && Increasing(r)
    requires forall x :: x in q <==> x in r
    ensures q == r
    decreases |q|
  {
    EmptyMeansNothingIn(q);
    EmptyMeansNothingIn(r);
    if q == [] {
    } else {
      assert q[0] in q;
      assert r[0] in r;
      assert q[0] == r[0];
      forall x
        ensures x in q[1..] <==> x in r[1..]
      {
        assert x in q[1..] <==> x in q && x != q[0];
        assert x in r[1..] <==> x in r && x != r[0];
      }
      IncreasingUnique(q[1..], r[1..]);
    }
  }

  ghost predicate NumbersDistinct(ps: seq<Packet>) {
    forall i, j | 0 <= i < j < |ps| :: ps[i].seqNr != ps[j].seqNr
  }

  /** With different numbers, every packet is the first of its number. */
  lemma FirstOfDistinct(q: seq<Packet>, ps: seq<Packet>, x: Packet)
    requires NumbersDistinct(ps)
    ensures FirstOfItsNumber(q, ps, x) <==> x in ps && !Holds(q, x.seqNr)
  {
    hide Holds;
    if x in ps && !Holds(q, x.seqNr) {
      var k :| 0 <= k < |ps| && ps[k] == x;
      assert ComesFirst(q, ps, k) && ps[k] == x;
    }
  }

  /** Packets whose numbers are settled may come in any order: the queue comes out the same. */
  lemma SameNumbersSameQueue(q: seq<Packet>, ps: seq<Packet>, rs: seq<Packet>)
    requires Increasing(q) && NumbersDistinct(ps) && NumbersDistinct(rs)
    requires forall x :: x in ps <==> x in rs
    ensures Fill(q, ps, true) == Fill(q, rs, true)
  {
    hide NumbersDistinct, FirstOfItsNumber, Fill;
    forall x
      ensures x in Fill(q, ps, true) <==> x in Fill(q, rs, true)
    {
      FillContent(q, ps, x);
      FillContent(q, rs, x);
      FirstOfDistinct(q, ps, x);
      FirstOfDistinct(q, rs, x);
    }
    FillContent(q, ps, Packet(0, []));
    FillContent(q, rs, Packet(0, []));
    IncreasingUnique(Fill(q, ps, true), Fill(q, rs, true));
  }
}
