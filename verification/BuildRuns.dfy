/** What a run of calls to the compound packet builder leaves: everything it accepted, in the order of the
    calls, and so what a receiver reads. */
module BuildRuns {
  import opened Bytes
  import opened RtcpPackets
  import opened SdesPacket
  import opened CompoundFormat
  import opened CompoundRuns
  import opened PacketOrder
  import CP = CompoundPacket

  /** The calls that were accepted. */
  ghost function Accepted(max: nat, ops: seq<Op>): seq<Op>
    requires OpsOk(ops) && max < 0x1_0000_0000_0000_0000
  {
    if ops == [] then []
    else
      var last := |ops| - 1;
      Accepted(max, ops[..last]) + if Admits(Run(max, ops[..last]), ops[last]) then [ops[last]] else []
  }

  // ---------------------------------------------------------------- what a list of calls says

  function BlocksOf(acc: seq<Op>): seq<ReportBlock> {
    if acc == [] then [] else (if acc[0].AddBlock? then [acc[0].block] else []) + BlocksOf(acc[1..])
  }

  function AppsOf(acc: seq<Op>): seq<App> {
    if acc == [] then [] else (if acc[0].AddApp? then [acc[0].app] else []) + AppsOf(acc[1..])
  }

  function ByesOf(acc: seq<Op>): seq<Bye> {
    if acc == [] then [] else (if acc[0].AddBye? then [acc[0].bye] else []) + ByesOf(acc[1..])
  }

  /** The items up to the next source. */
  function ItemsHere(acc: seq<Op>): seq<Item> {
    if acc == [] || acc[0].AddSource? then []
    else (if acc[0].AddItem? then [acc[0].item] else []) + ItemsHere(acc[1..])
  }

  /** Every source with the items added behind it. */
  function ChunksOf(acc: seq<Op>): seq<Chunk> {
    if acc == [] then []
    else (if acc[0].AddSource? then [Chunk(acc[0].source, ItemsHere(acc[1..]))] else []) + ChunksOf(acc[1..])
  }

  predicate HasSource(acc: seq<Op>) {
    exists i :: 0 <= i < |acc| && acc[i].AddSource?
  }

  // ---------------------------------------------------------------- one more call

  lemma {:induction false} BlocksMore(acc: seq<Op>, op: Op)
    ensures BlocksOf(acc + [op]) == BlocksOf(acc) + if op.AddBlock? then [op.block] else []
  {
    if acc == [] {
      assert [op][1..] == [];
    } else {
      assert (acc + [op])[1..] == acc[1..] + [op] && (acc + [op])[0] == acc[0];
      BlocksMore(acc[1..], op);
      hide BlocksOf;
      var first, last := if acc[0].AddBlock? then [acc[0].block] else [], if op.AddBlock? then [op.block] else [];
      Assoc(first, BlocksOf(acc[1..]), last);
    }
  }

  lemma {:induction false} AppsMore(acc: seq<Op>, op: Op)
    ensures AppsOf(acc + [op]) == AppsOf(acc) + if op.AddApp? then [op.app] else []
  {
    if acc == [] {
      assert [op][1..] == [];
    } else {
      assert (acc + [op])[1..] == acc[1..] + [op] && (acc + [op])[0] == acc[0];
      AppsMore(acc[1..], op);
      hide AppsOf;
      var first, last := if acc[0].AddApp? then [acc[0].app] else [], if op.AddApp? then [op.app] else [];
      Assoc(first, AppsOf(acc[1..]), last);
    }
  }

  lemma {:induction false} ByesMore(acc: seq<Op>, op: Op)
    ensures ByesOf(acc + [op]) == ByesOf(acc) + if op.AddBye? then [op.bye] else []
  {
    if acc == [] {
      assert [op][1..] == [];
    } else {
      assert (acc + [op])[1..] == acc[1..] + [op] && (acc + [op])[0] == acc[0];
      ByesMore(acc[1..], op);
      hide ByesOf;
      var first, last := if acc[0].AddBye? then [acc[0].bye] else [], if op.AddBye? then [op.bye] else [];
      Assoc(first, ByesOf(acc[1..]), last);
    }
  }

  lemma {:induction false} ItemsMore(acc: seq<Op>, op: Op)
    ensures ItemsHere(acc + [op]) == ItemsHere(acc) + if op.AddItem? && !HasSource(acc) then [op.item] else []
  {
    if acc == [] {
      assert [op][1..] == [];
    } else {
      assert (acc + [op])[1..] == acc[1..] + [op];
      ItemsMore(acc[1..], op);
      SourceFirst(acc);
    }
  }

  lemma SourceFirst(acc: seq<Op>)
    requires acc != []
    ensures HasSource(acc) <==> acc[0].AddSource? || HasSource(acc[1..])
  {
    if i :| 0 <= i < |acc[1..]| && acc[1..][i].AddSource? {
      assert acc[i + 1].AddSource?;
    }
    if i :| 0 <= i < |acc| && acc[i].AddSource? {
      assert i > 0 ==> acc[1..][i - 1].AddSource?;
    }
  }

  lemma {:induction false} ChunksMore(acc: seq<Op>, op: Op)
    ensures (ChunksOf(acc) != [] <==> HasSource(acc))
    ensures
      ChunksOf(acc + [op]) ==
        if op.AddSource? then ChunksOf(acc) + [Chunk(op.source, [])]
        else if op.AddItem? && HasSource(acc) then WithItem(ChunksOf(acc), op.item)
        else ChunksOf(acc)
  {
    hide HasSource, WithItem, ItemsHere;
    if acc == [] {
      assert [op][1..] == [];
      NoSource();
    } else {
      assert (acc + [op])[1..] == acc[1..] + [op];
      ChunksMore(acc[1..], op);
      SourceFirst(acc);
      ItemsMore(acc[1..], op);
      ChunksCons(acc);
      ChunksCons(acc + [op]);
      assert ItemsHere(acc[1..]) + [] == ItemsHere(acc[1..]);
      if acc[0].AddSource? {
        ItemLast(Chunk(acc[0].source, ItemsHere(acc[1..])), ChunksOf(acc[1..]), op);
      }
    }
  }

  lemma NoSource()
    ensures !HasSource([]) && ItemsHere([]) == []
  {
  }

  lemma ChunksCons(acc: seq<Op>)
    requires acc != []
    ensures
      ChunksOf(acc) ==
        if acc[0].AddSource? then [Chunk(acc[0].source, ItemsHere(acc[1..]))] + ChunksOf(acc[1..])
        else ChunksOf(acc[1..])
  {
    hide ItemsHere;
  }

  lemma ItemLast(c: Chunk, b: seq<Chunk>, op: Op)
    ensures op.AddItem? && b != [] ==> WithItem([c] + b, op.item) == [c] + WithItem(b, op.item)
    ensures op.AddItem? && b == [] ==> WithItem([c] + b, op.item) == [Chunk(c.ssrc, c.items + [op.item])] + b
    ensures op.AddSource? ==> [c] + b + [Chunk(op.source, [])] == [c] + (b + [Chunk(op.source, [])])
  {
  }

  // ---------------------------------------------------------------- whole runs

  /** The first report started. */
  function StartOf(acc: seq<Op>): (uint32, Option<SenderInfo>) {
    if acc == [] then (0, None) else if acc[0].StartReport? then (acc[0].ssrc, acc[0].info) else StartOf(acc[1..])
  }

  predicate HasStart(acc: seq<Op>) {
    exists i :: 0 <= i < |acc| && acc[i].StartReport?
  }

  lemma {:induction false} StartMore(acc: seq<Op>, op: Op)
    ensures HasStart(acc + [op]) <==> HasStart(acc) || op.StartReport?
    ensures StartOf(acc + [op]) ==
      if HasStart(acc) then StartOf(acc) else if op.StartReport? then (op.ssrc, op.info) else (0, None)
    ensures !HasStart(acc) ==> StartOf(acc) == (0, None)
  {
    HasStartMore(acc, op);
    if acc == [] {
      assert [op][1..] == [];
    } else {
      assert (acc + [op])[1..] == acc[1..] + [op];
      StartMore(acc[1..], op);
      if i :| 0 <= i < |acc[1..]| && acc[1..][i].StartReport? {
        assert acc[i + 1].StartReport?;
      }
      if i :| 0 <= i < |acc| && acc[i].StartReport? {
        assert i > 0 ==> acc[1..][i - 1].StartReport?;
      }
    }
  }

  lemma HasStartMore(acc: seq<Op>, op: Op)
    ensures HasStart(acc + [op]) <==> HasStart(acc) || op.StartReport?
  {
    var g := acc + [op];
    if i :| 0 <= i < |acc| && acc[i].StartReport? {
      assert g[i].StartReport?;
    }
    assert g[|acc|] == op;
  }

  /** The content is what the accepted calls say. */
  ghost predicate Holds(b: Build, acc: seq<Op>) {
    && b.content.blocks == BlocksOf(acc) && b.content.chunks == ChunksOf(acc)
    && b.content.apps == AppsOf(acc) && b.content.byes == ByesOf(acc)
    && (b.content.ssrc, b.content.info) == StartOf(acc) && (b.started <==> HasStart(acc))
  }

  lemma HoldsMore(b: Build, acc: seq<Op>, op: Op)
    requires Holds(b, acc) && BuildOk(b) && OpOk(op) && Admits(b, op)
    ensures Holds(With(b, op), acc + [op])
  {
    hide BlocksOf, ChunksOf, AppsOf, ByesOf, StartOf, HasStart, HasSource, Needed, ContentOk, WithItem;
    BlocksMore(acc, op);
    AppsMore(acc, op);
    ByesMore(acc, op);
    ChunksMore(acc, op);
    StartMore(acc, op);
  }

  /** Over every run of calls the content holds everything that was accepted, in the order of the calls:
      blocks, APP and BYE packets, and every source with the items added behind it. */
  lemma {:induction false} AcceptedInOrder(max: nat, ops: seq<Op>)
    requires OpsOk(ops) && max < 0x1_0000_0000_0000_0000
    ensures Holds(Run(max, ops), Accepted(max, ops))
  {
    hide Holds, With, Admits, Needed, ContentOk, OpOk, Size;
    if ops == [] {
      EmptyRun(max);
      EmptyHolds(max);
    } else {
      var last := |ops| - 1;
      AcceptedInOrder(max, ops[..last]);
      RunStep(max, ops);
      var b := Run(max, ops[..last]);
      if Admits(b, ops[last]) {
        HoldsMore(b, Accepted(max, ops[..last]), ops[last]);
      } else {
        assert Accepted(max, ops) == Accepted(max, ops[..last]);
      }
    }
  }

  lemma EmptyHolds(max: nat)
    ensures Holds(Build(max, false, EMPTY), [])
  {
  }

  /** A receiver finds what was accepted: 31 blocks and 31 sources to a packet, reports first, then SDES,
      APP and BYE packets, each in the order of the calls. */
  lemma AcceptedIsRead(max: nat, ops: seq<Op>)
    requires OpsOk(ops) && max < 0x1_0000_0000_0000_0000
    requires var c := Run(max, ops).content; ContentOk(c) && |CompoundBytes(c)| <= 0x4_0000
    ensures
      var acc := Accepted(max, ops);
      var c := Content(StartOf(acc).0, StartOf(acc).1, BlocksOf(acc), ChunksOf(acc), AppsOf(acc), ByesOf(acc));
      var got := CP.Parse(CompoundBytes(Run(max, ops).content));
      && got.Some? && |got.value| == Reports(c) + Descriptions(c) + |c.apps| + |c.byes|
      && forall i | 0 <= i < |got.value| :: Says(got.value[i], c, i)
  {
    hide Says, CP.Parse, CompoundBytes, ContentOk, Run, Accepted, Reports, Descriptions;
    AcceptedInOrder(max, ops);
    EachPacket(Run(max, ops).content);
  }
}
