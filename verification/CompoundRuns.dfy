/** What was added to a compound packet so far, which additions the builder admits, and when a build
    stays within its limit: rtcpcompoundpacketbuilder.{h,cpp}. */
module CompoundRuns {
  import opened Bytes
  import opened RtcpPackets
  import opened SdesPacket
  import opened CompoundFormat

  const MINPACKETSIZE: nat := 600

  const EMPTY := Content(0, None, [], [], [], [])

  /** Size of everything added so far; without a report there is none to count. */
  function Needed(started: bool, c: Content): nat
    requires ContentOk(c)
  {
    (if started then ReportNeeded(c.info.Some?, |c.blocks|) else 0) + SdesNeeded(c.chunks)
    + TotalSize(AppPackets(c.apps)) + TotalSize(ByePackets(c.byes))
  }

  function WithItem(cs: seq<Chunk>, i: Item): seq<Chunk>
    requires cs != []
  {
    var last := |cs| - 1;
    cs[last := Chunk(cs[last].ssrc, cs[last].items + [i])]
  }

  // ---------------------------------------------------------------- sizes grow

  lemma {:induction false} ItemOffsetAppend(items: seq<Item>, i: Item)
    ensures ItemOffset(items + [i], |items| + 1) == ItemOffset(items, |items|) + 2 + |i.data|
  {
    ItemOffsetPrefix(items, [i], |items|);
    ItemOffsetStep(items + [i], |items|);
  }

  lemma {:induction false} ItemOffsetPrefix(a: seq<Item>, b: seq<Item>, j: nat)
    requires j <= |a|
    ensures ItemOffset(a + b, j) == ItemOffset(a, j)
    decreases j
  {
    if j > 0 {
      assert (a + b)[1..] == a[1..] + b;
      ItemOffsetPrefix(a[1..], b, j - 1);
    }
  }

  lemma {:induction false} SizeOfChunksAppend(cs: seq<Chunk>, c: Chunk)
    ensures SizeOfChunks(cs + [c]) == SizeOfChunks(cs) + ChunkSize(c)
  {
    SizeOfChunksSplit(cs + [c], |cs|);
    assert (cs + [c])[..|cs|] == cs && (cs + [c])[|cs|..] == [c];
    assert [c][1..] == [];
  }

  lemma {:induction false} ByePacketsAppend(byes: seq<Bye>, b: Bye)
    requires (forall x | x in byes :: ByeOk(x)) && ByeOk(b)
    ensures ByePackets(byes + [b]) == ByePackets(byes) + [ByeBytes(b)]
    ensures TotalSize(ByePackets(byes + [b])) == TotalSize(ByePackets(byes)) + |ByeBytes(b)|
  {
    hide ByeBytes, ByeOk;
    if byes == [] {
      assert [b][1..] == [];
    } else {
      assert (byes + [b])[1..] == byes[1..] + [b];
      ByePacketsAppend(byes[1..], b);
    }
    ConcatAppend(ByePackets(byes), [ByeBytes(b)]);
    ConcatOne(ByeBytes(b));
  }

  lemma {:induction false} AppPacketsAppend(apps: seq<App>, a: App)
    requires (forall x | x in apps :: AppOk(x)) && AppOk(a)
    ensures AppPackets(apps + [a]) == AppPackets(apps) + [AppBytes(a)]
    ensures TotalSize(AppPackets(apps + [a])) == TotalSize(AppPackets(apps)) + |AppBytes(a)|
  {
    hide AppBytes, AppOk;
    if apps == [] {
      assert [a][1..] == [];
    } else {
      assert (apps + [a])[1..] == apps[1..] + [a];
      AppPacketsAppend(apps[1..], a);
    }
    ConcatAppend(AppPackets(apps), [AppBytes(a)]);
    ConcatOne(AppBytes(a));
  }

  lemma FirstChunkSize(ssrc: uint32)
    ensures SdesNeeded([] + [Chunk(ssrc, [])]) == 12 && SdesNeeded([]) == 0
  {
    var cs := [Chunk(ssrc, [])];
    assert [] + cs == cs && cs[1..] == [];
    assert ChunkSize(cs[0]) == 8;
    assert SizeOfChunks(cs) == ChunkSize(cs[0]) + SizeOfChunks(cs[1..]);
  }

  lemma WithItemGrows(cs: seq<Chunk>, i: Item)
    requires cs != []
    ensures SdesNeeded(WithItem(cs, i)) >= SdesNeeded(cs)
  {
    var last := |cs| - 1;
    var c := Chunk(cs[last].ssrc, cs[last].items + [i]);
    assert cs == cs[..last] + [cs[last]] && WithItem(cs, i) == cs[..last] + [c];
    hide SizeOfChunks, ItemOffset, WithItem;
    SizeOfChunksAppend(cs[..last], cs[last]);
    SizeOfChunksAppend(cs[..last], c);
    ItemOffsetAppend(cs[last].items, i);
  }

  lemma MoreChunksGrow(cs: seq<Chunk>, c: Chunk)
    ensures SdesNeeded(cs + [c]) >= SdesNeeded(cs) + ChunkSize(c)
  {
    hide ChunkSize, SizeOfChunks;
    SizeOfChunksAppend(cs, c);
  }

  // ---------------------------------------------------------------- builds

  /** A build under way: its limit, whether a report is started, and what was added. */
  datatype Build = Build(max: nat, started: bool, content: Content)

  datatype Op =
    | StartReport(ssrc: uint32, info: Option<SenderInfo>)
    | AddBlock(block: ReportBlock)
    | AddSource(source: uint32)
    | AddItem(item: Item)
    | AddBye(bye: Bye)
    | AddApp(app: App)

  predicate OpOk(op: Op) {
    match op
    case AddItem(i) => ItemOk(i)
    case AddBye(b) => ByeOk(b)
    case AddApp(a) => AppOk(a)
    case _ => true
  }

  ghost predicate BuildOk(b: Build) {
    ContentOk(b.content) && (!b.started ==> b.content.blocks == [] && b.content.info == None)
  }

  function Size(b: Build): nat
    requires ContentOk(b.content)
  {
    Needed(b.started, b.content)
  }

  predicate Fits(b: Build)
    requires ContentOk(b.content)
  {
    Size(b) <= b.max
  }

  /** The build with one more thing in it. An item goes to the last source. */
  function With(b: Build, op: Op): Build {
    var c := b.content;
    match op
    case StartReport(ssrc, info) => b.(started := true, content := c.(ssrc := ssrc, info := info))
    case AddBlock(r) => b.(content := c.(blocks := c.blocks + [r]))
    case AddSource(ssrc) => b.(content := c.(chunks := c.chunks + [Chunk(ssrc, [])]))
    case AddItem(i) => if c.chunks == [] then b else b.(content := c.(chunks := WithItem(c.chunks, i)))
    case AddBye(x) => b.(content := c.(byes := c.byes + [x]))
    case AddApp(x) => b.(content := c.(apps := c.apps + [x]))
  }

  lemma {:induction false} WithOk(b: Build, op: Op)
    requires ContentOk(b.content) && OpOk(op)
    ensures ContentOk(With(b, op).content)
  {
    match op
    case AddItem(i) =>
      var cs := b.content.chunks;
      if cs != [] {
        var last := |cs| - 1;
        assert ChunkOk(cs[last]);
        assert ChunkOk(Chunk(cs[last].ssrc, cs[last].items + [i]));
      }
    case AddSource(ssrc) => assert ChunkOk(Chunk(ssrc, []));
    case _ =>
  }

  /** Unsigned subtraction of a `size_t`. */
  function SizeLeft(max: nat, total: nat): nat {
    (max - total) % 0x1_0000_0000_0000_0000
  }

  /** What is let in. The remaining size for a report is computed unsigned, and the first source is not
      counted; everything else is let in exactly if it fits. */
  ghost predicate Admits(b: Build, op: Op)
    requires ContentOk(b.content) && OpOk(op)
  {
    WithOk(b, op);
    match op
    case StartReport(_, info) => !b.started && (if info.Some? then 28 else 8) <= SizeLeft(b.max, Size(b))
    case AddBlock(_) => b.started && Fits(With(b, op))
    case AddSource(_) => if b.content.chunks == [] then Fits(b) else Fits(With(b, op))
    case AddItem(_) => b.content.chunks != [] && Fits(With(b, op))
    case _ => Fits(With(b, op))
  }

  ghost function After(b: Build, op: Op): Build
    requires ContentOk(b.content) && OpOk(op)
  {
    if Admits(b, op) then With(b, op) else b
  }

  /** The first source is let in although its 12 bytes are not free. */
  ghost predicate Overshoots(b: Build, op: Op)
    requires ContentOk(b.content)
  {
    op.AddSource? && b.content.chunks == [] && Fits(b) && Size(b) + 12 > b.max
  }

  // ---------------------------------------------------------------- one step

  lemma SizeGrows(b: Build, op: Op)
    requires BuildOk(b) && OpOk(op) && (op.StartReport? ==> !b.started)
    ensures BuildOk(With(b, op)) || (op.AddBlock? && !b.started)
    ensures ContentOk(With(b, op).content) && Size(With(b, op)) >= Size(b)
    ensures op.StartReport? ==> Size(With(b, op)) == Size(b) + if op.info.Some? then 28 else 8
    ensures op.AddSource? && b.content.chunks == [] ==> Size(With(b, op)) == Size(b) + 12
  {
    WithOk(b, op);
    hide ContentOk, TotalSize, SdesNeeded, WithItem, AppPackets, ByePackets;
    var c := b.content;
    match op
    case AddItem(i) =>
      if c.chunks != [] {
        WithItemGrows(c.chunks, i);
      }
    case AddSource(ssrc) =>
      MoreChunksGrow(c.chunks, Chunk(ssrc, []));
      FirstChunkSize(ssrc);
    case AddBye(x) => ByesOfContent(c); ByePacketsAppend(c.byes, x);
    case AddApp(x) => ByesOfContent(c); AppPacketsAppend(c.apps, x);
    case _ =>
  }

  lemma ByesOfContent(c: Content)
    requires ContentOk(c)
    ensures (forall b | b in c.byes :: ByeOk(b)) && forall a | a in c.apps :: AppOk(a)
  {
  }

  /** A step leaves the limit exactly by an overshoot, and never comes back. */
  lemma StepFits(b: Build, op: Op)
    requires BuildOk(b) && OpOk(op) && b.max < 0x1_0000_0000_0000_0000
    ensures BuildOk(After(b, op)) && After(b, op).max == b.max
    ensures Fits(After(b, op)) <==> Fits(b) && !Overshoots(b, op)
    ensures Size(b) <= b.max + 12 + (if b.started then 28 else 0) ==>
      Size(After(b, op)) <= b.max + 12 + (if After(b, op).started then 28 else 0)
  {
    if Admits(b, op) {
      SizeGrows(b, op);
    }
    hide ContentOk, Needed, WithItem;
  }

  /** What a BYE or an APP packet adds to the size. */
  lemma PacketAdds(started: bool, c: Content, b: Bye, a: App)
    requires ContentOk(c) && ByeOk(b) && AppOk(a)
    ensures
      var d, e := c.(byes := c.byes + [b]), c.(apps := c.apps + [a]);
      && ContentOk(d) && Needed(started, d) == Needed(started, c) + |ByeBytes(b)|
      && ContentOk(e) && Needed(started, e) == Needed(started, c) + |AppBytes(a)|
  {
    hide ByeBytes, AppBytes, ByeOk, AppOk, SdesNeeded, ReportNeeded, ChunksOk;
    ByePacketsAppend(c.byes, b);
    AppPacketsAppend(c.apps, a);
  }

  // ---------------------------------------------------------------- whole runs

  ghost predicate OpsOk(ops: seq<Op>) {
    forall op | op in ops :: OpOk(op)
  }

  /** The build after the calls `ops`, refused ones included. */
  ghost function Run(max: nat, ops: seq<Op>): (b: Build)
    requires OpsOk(ops) && max < 0x1_0000_0000_0000_0000
    ensures BuildOk(b) && b.max == max
    ensures Size(b) <= max + 12 + (if b.started then 28 else 0)
  {
    if ops == [] then
      NothingNeeded();
      Build(max, false, EMPTY)
    else
      var last := |ops| - 1;
      StepFits(Run(max, ops[..last]), ops[last]);
      After(Run(max, ops[..last]), ops[last])
  }

  lemma NothingNeeded()
    ensures ContentOk(EMPTY) && Needed(false, EMPTY) == 0
  {
  }

  /** Over every run of calls the size stays within the limit exactly if the 12 bytes of the first source
      were free when it came; otherwise it passes the limit by at most 40. */
  lemma {:induction false} FitsExactly(max: nat, ops: seq<Op>)
    requires OpsOk(ops) && max < 0x1_0000_0000_0000_0000
    ensures Fits(Run(max, ops)) <==> forall k | 0 <= k < |ops| :: !Overshoots(Run(max, ops[..k]), ops[k])
    ensures Size(Run(max, ops)) <= max + 40
  {
    hide Run, Fits, Overshoots, After, Size, OpOk, BuildOk, ContentOk;
    if ops == [] {
      EmptyRun(max);
    } else {
      var last := |ops| - 1;
      var front := ops[..last];
      RunStep(max, ops);
      FitsExactly(max, front);
      forall k | 0 <= k < last
        ensures front[..k] == ops[..k] && front[k] == ops[k]
      {
      }
      assert ops[..last] == front;
    }
  }

  lemma EmptyRun(max: nat)
    requires max < 0x1_0000_0000_0000_0000
    ensures Run(max, []) == Build(max, false, EMPTY) && Fits(Run(max, []))
  {
    hide Needed;
    NothingNeeded();
  }

  lemma RunStep(max: nat, ops: seq<Op>)
    requires OpsOk(ops) && max < 0x1_0000_0000_0000_0000 && ops != []
    ensures
      var last := |ops| - 1;
      var b := Run(max, ops[..last]);
      && Run(max, ops) == After(b, ops[last])
      && (Fits(Run(max, ops)) <==> Fits(b) && !Overshoots(b, ops[last]))
  {
    hide Needed, ContentOk, With, Admits, Overshoots;
    StepFits(Run(max, ops[..|ops| - 1]), ops[|ops| - 1]);
  }

  /** A report is let in late exactly if it fits or nothing does any more: once the limit is passed, the
      unsigned remainder is huge. */
  lemma LateReport(max: nat, ops: seq<Op>, ssrc: uint32, info: Option<SenderInfo>)
    requires OpsOk(ops) && max < 0x1_0000_0000_0000_0000
    ensures
      var b, op := Run(max, ops), StartReport(ssrc, info);
      && ContentOk(With(b, op).content)
      && (Admits(b, op) <==> !b.started && (!Fits(b) || Fits(With(b, op))))
  {
    LateReportAt(Run(max, ops), StartReport(ssrc, info));
  }

  lemma LateReportAt(b: Build, op: Op)
    requires BuildOk(b) && op.StartReport? && b.max < 0x1_0000_0000_0000_0000
    requires Size(b) <= b.max + 12 + (if b.started then 28 else 0)
    ensures ContentOk(With(b, op).content)
    ensures Admits(b, op) <==> !b.started && (!Fits(b) || Fits(With(b, op)))
  {
    hide Needed, ContentOk;
    WithOk(b, op);
    if !b.started {
      SizeGrows(b, op);
    }
  }

  // ---------------------------------------------------------------- the limit passed

  const BLANK := ReportBlock(0, 0, 0, 0, 0, 0, 0)

  function Blocks(n: nat): seq<ReportBlock> {
    seq(n, _ => BLANK)
  }

  /** A receiver report with blocks only. */
  function BlocksOnly(n: nat): Build {
    Build(610, true, EMPTY.(ssrc := 1, blocks := Blocks(n)))
  }

  lemma BlocksOnlySize(n: nat)
    ensures BuildOk(BlocksOnly(n)) && Size(BlocksOnly(n)) == ReportNeeded(false, n)
  {
    NothingNeeded();
  }

  lemma {:induction false} RunOfBlocks(ops: seq<Op>, n: nat)
    requires n <= 25 && ops == [StartReport(1, None)] + seq(n, _ => AddBlock(BLANK))
    ensures OpsOk(ops) && Run(610, ops) == BlocksOnly(n)
  {
    hide Size, Fits;
    if n == 0 {
      EmptyRun(610);
      assert ops[..0] == [];
      RunStep(610, ops);
      assert Blocks(0) == [];
      FirstReport();
    } else {
      assert ops[..n] == [StartReport(1, None)] + seq(n - 1, _ => AddBlock(BLANK));
      RunOfBlocks(ops[..n], n - 1);
      assert Blocks(n) == Blocks(n - 1) + [BLANK];
      BlocksOnlySize(n);
      RunStep(610, ops);
      assert With(BlocksOnly(n - 1), AddBlock(BLANK)) == BlocksOnly(n);
      assert Fits(BlocksOnly(n)) by { SmallReport(n); }
    }
  }

  lemma FirstReport()
    ensures Admits(Build(610, false, EMPTY), StartReport(1, None))
  {
    NothingNeeded();
  }

  lemma SmallReport(n: nat)
    requires n <= 25
    ensures ContentOk(BlocksOnly(n).content) && Fits(BlocksOnly(n))
  {
    BlocksOnlySize(n);
  }

  /** With a limit of 610 bytes, a receiver report with 25 blocks takes 608. The first SDES source is let
      in all the same, and the packet takes 620. */
  lemma FirstSourceOvershoots()
    ensures
      var ops := [StartReport(1, None)] + seq(25, _ => AddBlock(BLANK));
      && OpsOk(ops) && OpsOk(ops + [AddSource(1)])
      && Size(Run(610, ops)) == 608 && Overshoots(Run(610, ops), AddSource(1))
      && Size(Run(610, ops + [AddSource(1)])) == 620
  {
    var ops := [StartReport(1, None)] + seq(25, _ => AddBlock(BLANK));
    RunOfBlocks(ops, 25);
    BlocksOnlySize(25);
    assert (ops + [AddSource(1)])[..26] == ops;
    RunStep(610, ops + [AddSource(1)]);
    SizeGrows(BlocksOnly(25), AddSource(1));
    hide Run, Needed, Blocks;
  }

  /** Without a report yet, the same happens to 600 bytes of APP data; the report is then let in too. */
  lemma ReportAfterOvershoot(data: seq<byte>)
    requires |data| == 588
    ensures
      var ops := [AddApp(App(0, 1, [0, 0, 0, 0], data)), AddSource(1), StartReport(1, None)];
      OpsOk(ops) && Run(600, ops).started && Size(Run(600, ops)) == 620
  {
    hide Needed, ContentOk, Run;
    var a, c, d := AddApp(App(0, 1, [0, 0, 0, 0], data)), AddSource(1), StartReport(1, None);
    var b := Build(600, false, EMPTY);
    EmptyRun(600);
    NothingNeeded();
    OneApp(b, a);
    SizeGrows(With(b, a), c);
    SizeGrows(With(With(b, a), c), d);
    assert [a, c, d][..2] == [a, c] && [a, c][..1] == [a] && [a][..0] == [];
    RunStep(600, [a]);
    RunStep(600, [a, c]);
    RunStep(600, [a, c, d]);
  }

  lemma OneApp(b: Build, op: Op)
    requires b.content == EMPTY && !b.started && op.AddApp? && AppOk(op.app)
    ensures ContentOk(With(b, op).content) && Size(With(b, op)) == 12 + |op.app.data|
  {
    hide AppBytes;
    WithOk(b, op);
    AppPacketsAppend([], op.app);
    NothingNeeded();
    assert AppPackets([]) == [] && [] + [op.app] == [op.app];
  }
}
