/** Rounds of our own SDES items over the packets they take: what is sent in a round, in which order, and
    how often each item is. */
module ItemRounds {
  import opened Bytes
  import opened SourceData
  import opened PacketBuilder

  predicate IsTurn(interval: int, k: int) {
    interval > 0 && k % interval == 0
  }

  function IfTurn(id: byte, intervals: seq<int>, k: int): seq<byte>
    requires 1 <= id <= |intervals|
  {
    if IsTurn(intervals[id - 1], k) then [id] else []
  }

  /** What round `k` sends: name, e-mail, location, phone, tool and note, those whose turn it is. */
  function Due(intervals: seq<int>, k: int): seq<byte>
    requires |intervals| == NUMITEMS
  {
    IfTurn(NAME, intervals, k) + IfTurn(EMAIL, intervals, k) + IfTurn(LOCATION, intervals, k)
    + IfTurn(PHONE, intervals, k) + IfTurn(TOOL, intervals, k) + IfTurn(NOTE, intervals, k)
  }

  /** An item other than the CNAME is due in exactly every n-th round, n being its interval; and none is
      due twice. */
  lemma DueExactly(intervals: seq<int>, k: int, id: byte)
    requires |intervals| == NUMITEMS
    ensures id in Due(intervals, k) <==> 2 <= id <= 7 && IsTurn(intervals[id - 1], k)
    ensures forall i, j | 0 <= i < j < |Due(intervals, k)| :: Due(intervals, k)[i] != Due(intervals, k)[j]
    ensures |Due(intervals, k)| <= 6
  {
    hide IsTurn;
  }

  lemma TodoOne(w: seq<bool>, intervals: seq<int>, n: int, k: nat, id: byte)
    requires |intervals| == NUMITEMS == |w| && k < |ORDER| && ORDER[k] == id
    requires forall i | 0 <= i < NUMITEMS :: w[i] == IsTurn(intervals[i], n)
    ensures 1 <= id <= NUMITEMS && TodoFrom(w, NONE, k) == IfTurn(id, intervals, n) + TodoFrom(w, NONE, k + 1)
  {
    hide TodoFrom, IsTurn;
    TodoStep(w, NONE, k);
  }

  lemma Joined(a: seq<byte>, b: seq<byte>, c: seq<byte>, d: seq<byte>, e: seq<byte>, f: seq<byte>)
    ensures a + (b + (c + (d + (e + (f + []))))) == a + b + c + d + e + f
  {
  }

  lemma Orders()
    ensures |ORDER| == 6 && ORDER[0] == NAME && ORDER[1] == EMAIL && ORDER[2] == LOCATION
    ensures ORDER[3] == PHONE && ORDER[4] == TOOL && ORDER[5] == NOTE
  {
  }

  lemma TodoIsDue(r: Round, intervals: seq<int>)
    requires |intervals| == NUMITEMS && r.done == NONE
    ensures TodoOf(Begun(r, intervals)) == Due(intervals, r.count + 1)
  {
    hide TodoFrom, IfTurn, ORDER;
    var w, n := Begun(r, intervals).wanted, r.count + 1;
    Orders();
    TodoOne(w, intervals, n, 0, NAME);
    TodoOne(w, intervals, n, 1, EMAIL);
    TodoOne(w, intervals, n, 2, LOCATION);
    TodoOne(w, intervals, n, 3, PHONE);
    TodoOne(w, intervals, n, 4, TOOL);
    TodoOne(w, intervals, n, 5, NOTE);
    assert TodoFrom(w, NONE, 6) == [] by {
      NothingLeft(w);
    }
    Joined(IfTurn(NAME, intervals, n), IfTurn(EMAIL, intervals, n), IfTurn(LOCATION, intervals, n),
           IfTurn(PHONE, intervals, n), IfTurn(TOOL, intervals, n), IfTurn(NOTE, intervals, n));
  }

  lemma NothingLeft(w: seq<bool>)
    requires |w| == NUMITEMS
    ensures |ORDER| == 6 && TodoFrom(w, NONE, 6) == []
  {
  }

  /** Packets that send `sents` one after the other, all in one round. */
  ghost predicate InOneRound(r: Round, sents: seq<seq<byte>>, s: Round)
    decreases |sents|
  {
    if sents == [] then s == r
    else exists m :: InOneRound(r, sents[..|sents| - 1], m) && m.going && GoesOn(m, s, sents[|sents| - 1])
  }

  lemma SentThenTodo(m: Round, s: Round, sent: seq<byte>, before: seq<byte>, all: seq<byte>)
    requires GoesOn(m, s, sent) && before + TodoOf(m) == all
    ensures s.wanted == m.wanted && s.count == m.count
    ensures s.going ==> before + sent + TodoOf(s) == all
    ensures !s.going ==> before + sent == all && s.done == NONE
  {
    hide TodoOf;
    assert TodoOf(m) == TodoOf(m)[..|sent|] + TodoOf(m)[|sent|..];
  }

  lemma {:induction false} SoFar(r: Round, sents: seq<seq<byte>>, s: Round)
    requires r.going && |r.wanted| == NUMITEMS == |r.done| && InOneRound(r, sents, s)
    ensures s.count == r.count && |s.wanted| == NUMITEMS == |s.done|
    ensures s.going ==> Concat(sents) + TodoOf(s) == TodoOf(r)
    ensures !s.going ==> Concat(sents) == TodoOf(r) && s.done == NONE
    decreases |sents|
  {
    hide TodoOf, Concat, GoesOn;
    if sents == [] {
      assert Concat<byte>([]) == [] by {
        NothingSent();
      }
      assert [] + TodoOf(s) == TodoOf(r);
    } else {
      var n := |sents| - 1;
      var m :| InOneRound(r, sents[..n], m) && m.going && GoesOn(m, s, sents[n]);
      SoFar(r, sents[..n], m);
      assert sents == sents[..n] + [sents[n]];
      ConcatAppend(sents[..n], [sents[n]]);
      ConcatOne(sents[n]);
      SentThenTodo(m, s, sents[n], Concat(sents[..n]), TodoOf(r));
      DoneSize(m, s, sents[n]);
    }
  }

  lemma NothingSent()
    ensures Concat<byte>([]) == []
  {
  }

  lemma DoneSize(m: Round, s: Round, sent: seq<byte>)
    requires GoesOn(m, s, sent)
    ensures |s.wanted| == NUMITEMS == |s.done|
  {
  }

  lemma {:induction false} AtLeastOneEach(sents: seq<seq<byte>>)
    requires forall i | 0 < i < |sents| :: sents[i] != []
    ensures |sents| <= |Concat(sents)| + 1
    decreases |sents|
  {
    hide Concat;
    if |sents| > 1 {
      var n := |sents| - 1;
      assert sents == sents[..n] + [sents[n]];
      AtLeastOneEach(sents[..n]);
      ConcatAppend(sents[..n], [sents[n]]);
      ConcatOne(sents[n]);
    }
  }

  /** Over however many packets a round goes: when it ends, it has sent exactly what was due, each item
      once and in order, and everything is ready for the next round; before it ends, what has been sent
      and what is still to go are what was due. If each packet but the first sends something, there are at
      most seven. */
  lemma RoundSendsWhatIsDue(r: Round, intervals: seq<int>, sents: seq<seq<byte>>, s: Round)
    requires |intervals| == NUMITEMS && r.done == NONE && InOneRound(Begun(r, intervals), sents, s)
    ensures s.count == r.count + 1 && |s.wanted| == NUMITEMS == |s.done|
    ensures s.going ==> Concat(sents) + TodoOf(s) == Due(intervals, s.count)
    ensures !s.going ==> Concat(sents) == Due(intervals, s.count) && s.done == NONE
    ensures (forall i | 0 < i < |sents| :: sents[i] != []) ==> |sents| <= 7
  {
    hide TodoOf, Concat, Due, InOneRound;
    TodoIsDue(r, intervals);
    SoFar(Begun(r, intervals), sents, s);
    DueExactly(intervals, r.count + 1, 0);
    if forall i | 0 < i < |sents| :: sents[i] != [] {
      AtLeastOneEach(sents);
    }
  }
}
