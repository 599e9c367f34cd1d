/** `RTCPCompoundPacketBuilder` of rtcpcompoundpacketbuilder.{h,cpp}. */
module CompoundBuilder {
  import opened Bytes
  import opened RtcpPackets
  import opened SdesPacket
  import opened CompoundFormat
  import opened CompoundRuns
  import SdesReader
  import CP = CompoundPacket

  datatype Error =
    | AlreadyBuilding | AlreadyBuilt | MaxPacketSizeTooSmall | BufferSizeTooSmall | NotBuilding | AlreadyGotReport
    | NotEnoughBytesLeft
    | ReportNotStarted | NoCurrentSource | InvalidItemType | TotalItemLengthTooBig | TooManySSRCs | IllegalSubtype
    | IllegalAppDataLength | AppDataLenTooBig | NoReportPresent
  datatype Status = Success | Failure(error: Error)

  /** The next multiple of four. */
  function RoundUp(x: nat): (y: nat)
    ensures y + 4 == Align(x + 4)
  {
    var r := x % 4;
    if r != 0 then x + (4 - r) else x
  }

  /** The builder's own record of an SDES chunk: its items as bytes, and their total size. */
  datatype SDESSource = SDESSource(ssrc: uint32, items: seq<seq<byte>>, totalItemSize: nat)
  {
    function NeededBytes(): nat {
      RoundUp(totalItemSize + 1) + 4
    }

    function NeededBytesWithExtraItem(itemDataLength: byte): nat {
      RoundUp(totalItemSize + 2 + itemDataLength + 1) + 4
    }
  }

  /** The record `s` stands for the chunk `c`. */
  ghost predicate SourceIs(s: SDESSource, c: Chunk) {
    && ChunkOk(c) && s.ssrc == c.ssrc && |s.items| == |c.items|
    && (forall i | 0 <= i < |s.items| :: ItemOk(c.items[i]) && s.items[i] == ItemBytes(c.items[i]))
    && s.totalItemSize == ItemOffset(c.items, |c.items|)
  }

  ghost predicate SourcesAre(ss: seq<SDESSource>, cs: seq<Chunk>) {
    |ss| == |cs| && forall i | 0 <= i < |ss| :: SourceIs(ss[i], cs[i])
  }

  lemma SourceSizes(s: SDESSource, c: Chunk, i: Item)
    requires SourceIs(s, c) && |i.data| <= 255
    ensures s.NeededBytes() == ChunkSize(c)
    ensures s.NeededBytesWithExtraItem(|i.data|) == ChunkSize(Chunk(c.ssrc, c.items + [i]))
  {
    hide Align, ItemOffset, RoundUp;
    ItemOffsetAppend(c.items, i);
  }

  class RTCPCompoundPacketBuilder {
    var maximumPacketSize: nat
    var buffer: array?<byte>
    var external: bool
    var areBuilding: bool

    var isSR: bool
    var headerLength: nat
    var headerData: seq<byte>
    var reportBlocks: seq<seq<byte>>

    var sdesSources: seq<SDESSource>

    var byePackets: seq<seq<byte>>
    var byeSize: nat
    var appPackets: seq<seq<byte>>
    var appSize: nat

    var compoundPacket: array?<byte>
    var compoundPacketLength: nat
    var rtcpPackList: seq<CP.PacketInfo>

    /** What was added so far. */
    ghost var content: Content

    ghost predicate ReportValid()
      reads this`isSR, this`headerLength, this`headerData, this`reportBlocks, this`content
    {
      && headerLength == (if isSR then 24 else if headerLength == 0 then 0 else 4)
      && isSR == content.info.Some?
      && (headerLength == 0 ==> content.blocks == [])
      && (headerLength != 0 ==>
            headerData == BE32(content.ssrc) + if content.info.Some? then InfoBytes(content.info.value) else [])
      && |reportBlocks| == |content.blocks|
      && forall i | 0 <= i < |reportBlocks| :: reportBlocks[i] == BlockBytes(content.blocks[i])
    }

    ghost predicate Valid()
      reads this
    {
      && (!areBuilding ==> content == EMPTY && headerLength == 0)
      && ContentOk(content)
      && ReportValid()
      && SourcesAre(sdesSources, content.chunks)
      && byePackets == ByePackets(content.byes) && byeSize == TotalSize(byePackets)
      && appPackets == AppPackets(content.apps) && appSize == TotalSize(appPackets)
    }

    /** The size of what was added. */
    ghost function Size(): nat
      requires ContentOk(content)
      reads this
    {
      Needed(headerLength != 0, content)
    }

    ghost predicate Fits()
      requires ContentOk(content)
      reads this
    {
      Size() <= maximumPacketSize
    }

    /** The build under way. */
    ghost function State(): Build
      reads this`maximumPacketSize, this`headerLength, this`content
    {
      Build(maximumPacketSize, headerLength != 0, content)
    }

    constructor ()
      ensures Valid() && !areBuilding && content == EMPTY && headerLength == 0 && compoundPacket == null
      ensures rtcpPackList == []
    {
      maximumPacketSize, buffer, external, areBuilding := 0, null, false, false;
      isSR, headerLength, headerData, reportBlocks, sdesSources := false, 0, [], [], [];
      byePackets, byeSize, appPackets, appSize := [], 0, [], 0;
      compoundPacket, compoundPacketLength, rtcpPackList := null, 0, [];
      content := EMPTY;
    }

    /** Both forms of `InitBuild`. An external buffer is the memory from the address on that the caller
        gives; the caller's part of it is the first `maxPacketSize` bytes. */
    method InitBuild(maxPacketSize: nat, externalBuffer: array?<byte>) returns (status: Status)
      requires Valid()
      requires externalBuffer != null ==> maxPacketSize <= externalBuffer.Length
      modifies this`maximumPacketSize, this`buffer, this`external, this`byeSize, this`appSize, this`areBuilding
      ensures status ==
        if old(areBuilding) then Failure(AlreadyBuilding)
        else if compoundPacket != null then Failure(AlreadyBuilt)
        else if maxPacketSize < MINPACKETSIZE then
          Failure(if externalBuffer == null then MaxPacketSizeTooSmall else BufferSizeTooSmall)
        else Success
      ensures Valid()
      ensures status.Success? ==>
        && areBuilding && State() == Build(maxPacketSize, false, EMPTY)
        && buffer == externalBuffer && (external <==> buffer != null)
    {
      if areBuilding {
        return Failure(AlreadyBuilding);
      }
      if compoundPacket != null {
        return Failure(AlreadyBuilt);
      }
      if maxPacketSize < MINPACKETSIZE {
        return Failure(if externalBuffer == null then MaxPacketSizeTooSmall else BufferSizeTooSmall);
      }
      maximumPacketSize := maxPacketSize;
      buffer := externalBuffer;
      external := externalBuffer != null;
      byeSize, appSize := 0, 0;
      areBuilding := true;
      status := Success;
    }

    // -------------------------------------------------------------- sizes

    /** `Report::NeededBytes` */
    function ReportNeededBytes(): (x: nat)
      requires ReportValid()
      reads this`isSR, this`headerLength, this`headerData, this`reportBlocks, this`content
      ensures x == if headerLength == 0 then 0 else ReportNeeded(isSR, |content.blocks|)
    {
      var n := |reportBlocks|;
      if n == 0 then
        if headerLength == 0 then 0 else 4 + headerLength
      else
        var d := if n % 31 != 0 then n / 31 + 1 else n / 31;
        n * 24 + d * 8 + if isSR then 20 else 0
    }

    /** `Report::NeededBytesWithExtraReportBlock` */
    function ReportNeededWithExtraBlock(): (x: nat)
      requires ReportValid()
      reads this`isSR, this`headerLength, this`headerData, this`reportBlocks, this`content
      ensures x == ReportNeeded(isSR, |content.blocks| + 1)
    {
      var n := |reportBlocks| + 1;
      var d := if n % 31 != 0 then n / 31 + 1 else n / 31;
      n * 24 + d * 8 + if isSR then 20 else 0
    }

    /** The loop shared by the `SDES::NeededBytes*` functions. */
    method SumSources(count: nat) returns (x: nat)
      requires SourcesAre(sdesSources, content.chunks) && count <= |sdesSources|
      ensures x == SizeOfChunks(content.chunks[..count])
    {
      hide ChunkSize;
      x := 0;
      for i := 0 to count
        invariant x == SizeOfChunks(content.chunks[..i])
      {
        assert content.chunks[..i + 1] == content.chunks[..i] + [content.chunks[i]];
        SizeOfChunksAppend(content.chunks[..i], content.chunks[i]);
        SourceSizes(sdesSources[i], content.chunks[i], Item(1, []));
        x := x + sdesSources[i].NeededBytes();
      }
    }

    /** `SDES::NeededBytes` */
    method SdesNeededBytes() returns (x: nat)
      requires SourcesAre(sdesSources, content.chunks)
      ensures x == SdesNeeded(content.chunks)
    {
      if |sdesSources| == 0 {
        return 0;
      }
      x := SumSources(|sdesSources|);
      assert content.chunks[..|sdesSources|] == content.chunks;
      var n := |sdesSources|;
      var d := n / 31;
      if n % 31 != 0 {
        d := d + 1;
      }
      x := x + d * 4;
    }

    /** `SDES::NeededBytesWithExtraItem` */
    method SdesNeededWithExtraItem(ghost i: Item, itemDataLength: byte) returns (x: nat)
      requires SourcesAre(sdesSources, content.chunks) && sdesSources != [] && |i.data| == itemDataLength
      ensures x == SdesNeeded(WithItem(content.chunks, i))
    {
      hide ChunkSize;
      var n := |sdesSources|;
      ghost var cs := content.chunks;
      x := SumSources(n - 1);
      SourceSizes(sdesSources[n - 1], cs[n - 1], i);
      x := x + sdesSources[n - 1].NeededBytesWithExtraItem(itemDataLength);
      assert WithItem(cs, i) == cs[..n - 1] + [Chunk(cs[n - 1].ssrc, cs[n - 1].items + [i])];
      SizeOfChunksAppend(cs[..n - 1], Chunk(cs[n - 1].ssrc, cs[n - 1].items + [i]));
      var d := n / 31;
      if n % 31 != 0 {
        d := d + 1;
      }
      x := x + d * 4;
    }

    /** `SDES::NeededBytesWithExtraSource`: while there is no source yet, it answers 0. */
    method SdesNeededWithExtraSource(ghost ssrc: uint32) returns (x: nat)
      requires SourcesAre(sdesSources, content.chunks)
      ensures x == if content.chunks == [] then 0 else SdesNeeded(content.chunks + [Chunk(ssrc, [])])
    {
      if |sdesSources| == 0 {
        return 0;
      }
      x := SumSources(|sdesSources|);
      assert content.chunks[..|sdesSources|] == content.chunks;
      SizeOfChunksAppend(content.chunks, Chunk(ssrc, []));
      x := x + 8;
      var n := |sdesSources| + 1;
      var d := n / 31;
      if n % 31 != 0 {
        d := d + 1;
      }
      x := x + d * 4;
    }

    // -------------------------------------------------------------- adding

    /** The sum every adder compares with the limit. */
    method TotalBytes() returns (x: nat)
      requires Valid()
      ensures x == Size()
    {
      hide Concat, SdesNeeded, ReportNeeded, BlockBytes, SourcesAre, AppPackets, ByePackets;
      var sdesBytes := SdesNeededBytes();
      x := appSize + byeSize + ReportNeededBytes() + sdesBytes;
    }

    /** `StartSenderReport` and `StartReceiverReport`; the remaining size is computed unsigned. */
    method StartReport(ssrc: uint32, info: Option<SenderInfo>) returns (status: Status)
      requires Valid()
      modifies this`isSR, this`headerLength, this`headerData, this`content
      ensures Valid()
      ensures status ==
        if !areBuilding then Failure(NotBuilding)
        else if old(headerLength) != 0 then Failure(AlreadyGotReport)
        else if (if info.Some? then 28 else 8) > SizeLeft(maximumPacketSize, old(Size())) then
          Failure(NotEnoughBytesLeft)
        else Success
      ensures status.Success? ==> headerLength != 0 && content == old(content).(ssrc := ssrc, info := info)
      ensures status.Success? && old(Fits()) && maximumPacketSize < 0x1_0000_0000_0000_0000 ==> Fits()
      ensures status.Failure? ==> content == old(content) && headerLength == old(headerLength)
      ensures areBuilding ==> State() == After(old(State()), Op.StartReport(ssrc, info))
    {
      hide Concat, SdesNeeded, ChunksOk, BlockBytes, InfoBytes, SourcesAre, AppPackets, ByePackets, WithItem;
      if !areBuilding {
        return Failure(NotBuilding);
      }
      if headerLength != 0 {
        return Failure(AlreadyGotReport);
      }
      var totalSize := SdesNeededBytes();
      totalSize := byeSize + appSize + totalSize;
      var sizeLeft := SizeLeft(maximumPacketSize, totalSize);
      var neededSize := if info.Some? then 4 + 4 + 20 else 4 + 4;
      if neededSize > sizeLeft {
        return Failure(NotEnoughBytesLeft);
      }
      headerLength := if info.Some? then 4 + 20 else 4;
      isSR := info.Some?;
      headerData := BE32(ssrc) + if info.Some? then InfoBytes(info.value) else [];
      content := content.(ssrc := ssrc, info := info);
      status := Success;
    }

    /** A block is accepted exactly when everything still fits with it. */
    method AddReportBlock(b: ReportBlock) returns (status: Status)
      requires Valid()
      modifies this`reportBlocks, this`content
      ensures Valid()
      ensures status ==
        if !areBuilding then Failure(NotBuilding)
        else if headerLength == 0 then Failure(ReportNotStarted)
        else if Needed(true, old(content).(blocks := old(content).blocks + [b])) > maximumPacketSize then
          Failure(NotEnoughBytesLeft)
        else Success
      ensures content == if status.Success? then old(content).(blocks := old(content).blocks + [b]) else old(content)
      ensures status.Success? ==> Fits()
      ensures areBuilding ==> State() == After(old(State()), Op.AddBlock(b))
    {
      if !areBuilding {
        return Failure(NotBuilding);
      }
      if headerLength == 0 {
        return Failure(ReportNotStarted);
      }
      hide Concat, SdesNeeded, ReportNeeded, BlockBytes, SourcesAre, AppPackets, ByePackets, WithItem;
      var others := SdesNeededBytes();
      others := byeSize + appSize + others;
      if others + ReportNeededWithExtraBlock() > maximumPacketSize {
        return Failure(NotEnoughBytesLeft);
      }
      reportBlocks := reportBlocks + [BlockBytes(b)];
      content := content.(blocks := content.blocks + [b]);
      status := Success;
    }

    /** The first source is admitted without counting its own 12 bytes; every later one exactly when
        everything still fits with it. */
    method AddSDESSource(ssrc: uint32) returns (status: Status)
      requires Valid()
      modifies this`sdesSources, this`content
      ensures Valid()
      ensures
        var c := old(content).(chunks := old(content).chunks + [Chunk(ssrc, [])]);
        && ContentOk(c)
        && status ==
          (if !areBuilding then Failure(NotBuilding)
           else if (if old(content).chunks == [] then old(Size()) else Needed(headerLength != 0, c)) > maximumPacketSize
           then Failure(NotEnoughBytesLeft)
           else Success)
        && content == if status.Success? then c else old(content)
      ensures status.Success? && old(content).chunks == [] ==> (Fits() <==> old(Size()) + 12 <= maximumPacketSize)
      ensures status.Success? && old(content).chunks != [] ==> Fits()
      ensures areBuilding ==> State() == After(old(State()), Op.AddSource(ssrc))
    {
      ghost var c := content.(chunks := content.chunks + [Chunk(ssrc, [])]);
      assert ChunkOk(Chunk(ssrc, []));
      if !areBuilding {
        return Failure(NotBuilding);
      }
      hide TotalSize, ReportNeeded, BlockBytes, Align;
      assert content.chunks == [] ==> SdesNeeded(c.chunks) == 12 && SdesNeeded([]) == 0 by {
        FirstChunkSize(ssrc);
      }
      hide SdesNeeded;
      var extra := SdesNeededWithExtraSource(ssrc);
      if byeSize + appSize + ReportNeededBytes() + extra > maximumPacketSize {
        return Failure(NotEnoughBytesLeft);
      }
      assert ItemOffset([], 0) == 0;
      sdesSources := sdesSources + [SDESSource(ssrc, [], 0)];
      content := c;
      status := Success;
    }

    /** Appends an item to the current source if everything still fits; shared by both item adders. */
    method AddItem(i: Item) returns (status: Status)
      requires Valid() && areBuilding && sdesSources != [] && ItemOk(i)
      modifies this`sdesSources, this`content
      ensures Valid()
      ensures
        var c := old(content).(chunks := WithItem(old(content).chunks, i));
        && ContentOk(c)
        && status == (if Needed(headerLength != 0, c) > maximumPacketSize then Failure(NotEnoughBytesLeft) else Success)
        && content == if status.Success? then c else old(content)
      ensures State() == After(old(State()), Op.AddItem(i))
    {
      hide TotalSize, ReportNeeded, BlockBytes, SdesNeeded, ItemOffset;
      var last := |sdesSources| - 1;
      ghost var cs := content.chunks;
      assert SourceIs(sdesSources[last], cs[last]);
      ghost var chunk := Chunk(cs[last].ssrc, cs[last].items + [i]);
      assert ChunkOk(chunk);
      ghost var c := content.(chunks := WithItem(cs, i));
      assert ContentOk(c);
      var size := SdesNeededWithExtraItem(i, |i.data|);
      if size + byeSize + appSize + ReportNeededBytes() > maximumPacketSize {
        return Failure(NotEnoughBytesLeft);
      }
      var s := sdesSources[last];
      var t := SDESSource(s.ssrc, s.items + [ItemBytes(i)], s.totalItemSize + 2 + |i.data|);
      ItemOffsetAppend(cs[last].items, i);
      assert SourceIs(t, chunk);
      sdesSources := sdesSources[last := t];
      content := c;
      status := Success;
    }

    /** `itemId` is the identifier the item type maps to: 1..7, anything else is refused. */
    method AddSDESNormalItem(itemId: byte, data: seq<byte>) returns (status: Status)
      requires Valid() && |data| <= 255
      modifies this`sdesSources, this`content
      ensures Valid()
      ensures
        if !areBuilding then status == Failure(NotBuilding) && content == old(content)
        else if old(content).chunks == [] then status == Failure(NoCurrentSource) && content == old(content)
        else if !(1 <= itemId <= 7) then status == Failure(InvalidItemType) && content == old(content)
        else
          var c := old(content).(chunks := WithItem(old(content).chunks, Item(itemId, data)));
          && ContentOk(c)
          && status == (if Needed(headerLength != 0, c) > maximumPacketSize then Failure(NotEnoughBytesLeft)
                        else Success)
          && content == if status.Success? then c else old(content)
      ensures areBuilding && 1 <= itemId <= 7 ==> State() == After(old(State()), Op.AddItem(Item(itemId, data)))
    {
      if !areBuilding {
        return Failure(NotBuilding);
      }
      if |sdesSources| == 0 {
        return Failure(NoCurrentSource);
      }
      if !(1 <= itemId <= 7) {
        return Failure(InvalidItemType);
      }
      status := AddItem(Item(itemId, data));
    }

    method AddSDESPrivateItem(prefix: seq<byte>, value: seq<byte>) returns (status: Status)
      requires Valid() && |prefix| <= 255 && |value| <= 255
      modifies this`sdesSources, this`content
      ensures Valid()
      ensures
        if !areBuilding then status == Failure(NotBuilding) && content == old(content)
        else if old(content).chunks == [] then status == Failure(NoCurrentSource) && content == old(content)
        else if |prefix| + 1 + |value| > 255 then status == Failure(TotalItemLengthTooBig) && content == old(content)
        else
          var i := Item(PRIVATE, SdesReader.PrivateData(prefix, value));
          var c := old(content).(chunks := WithItem(old(content).chunks, i));
          && ContentOk(c)
          && status == (if Needed(headerLength != 0, c) > maximumPacketSize then Failure(NotEnoughBytesLeft)
                        else Success)
          && content == if status.Success? then c else old(content)
      ensures areBuilding && |prefix| + 1 + |value| <= 255 ==>
        State() == After(old(State()), Op.AddItem(Item(PRIVATE, SdesReader.PrivateData(prefix, value))))
    {
      if !areBuilding {
        return Failure(NotBuilding);
      }
      if |sdesSources| == 0 {
        return Failure(NoCurrentSource);
      }
      var itemLength := |prefix| + 1 + |value|;
      if itemLength > 255 {
        return Failure(TotalItemLengthTooBig);
      }
      status := AddItem(Item(PRIVATE, [|prefix|] + prefix + value));
    }

    /** Lays out a BYE packet in a buffer of its own. */
    static method WriteBye(ssrcs: seq<uint32>, reason: seq<byte>, zeroBytes: nat, packSize: nat)
      returns (packetData: seq<byte>)
      requires ByeOk(Bye(ssrcs, reason)) && |ByeBytes(Bye(ssrcs, reason))| == packSize
      requires ReasonBytes(reason) == if reason == [] then [] else [|reason|] + reason + seq(zeroBytes, _ => 0)
      ensures packetData == ByeBytes(Bye(ssrcs, reason))
    {
      ByeLayout(Bye(ssrcs, reason), zeroBytes, packSize);
      hide ByeBytes, Words;
      var buf := new byte[packSize];
      var offset := Put(buf, 0, [0x80 + |ssrcs|, BYE] + BE16((packSize / 4 - 1) % 0x1_0000));
      assert buf[..offset] == [] + Header(|ssrcs|, BYE, packSize);
      offset := PutWords(buf, offset, ssrcs);
      if |reason| != 0 {
        offset := Put(buf, offset, [|reason|] + reason + seq(zeroBytes, _ => 0));
      }
      assert buf[..offset] == buf[..];
      packetData := buf[..];
    }

    static method WriteApp(subtype: byte, ssrc: uint32, name: seq<byte>, data: seq<byte>)
      returns (packetData: seq<byte>)
      requires AppOk(App(subtype, ssrc, name, data))
      ensures packetData == AppBytes(App(subtype, ssrc, name, data))
    {
      hide BE32, BE16;
      var packSize := 4 + 8 + |data|;
      assert (packSize / 4 - 1) % 0x1_0000 == |data| / 4 + 2;
      var buf := new byte[packSize];
      var offset := Put(buf, 0, [0x80 + subtype, APP] + BE16(|data| / 4 + 2));
      offset := Put(buf, offset, BE32(ssrc));
      offset := Put(buf, offset, name);
      offset := Put(buf, offset, data);
      assert buf[..offset] == buf[..];
      packetData := buf[..];
    }

    method AddBYEPacket(ssrcs: seq<uint32>, reason: seq<byte>) returns (status: Status)
      requires Valid() && |ssrcs| <= 255 && |reason| <= 255
      modifies this`byePackets, this`byeSize, this`content
      ensures Valid()
      ensures
        if !areBuilding then status == Failure(NotBuilding) && content == old(content)
        else if |ssrcs| > 31 then status == Failure(TooManySSRCs) && content == old(content)
        else
          var c := old(content).(byes := old(content).byes + [Bye(ssrcs, reason)]);
          && ContentOk(c)
          && status == (if Needed(headerLength != 0, c) > maximumPacketSize then Failure(NotEnoughBytesLeft)
                        else Success)
          && content == if status.Success? then c else old(content)
      ensures areBuilding && |ssrcs| <= 31 ==> State() == After(old(State()), Op.AddBye(Bye(ssrcs, reason)))
    {
      hide Needed, ByeBytes, ReportValid, SourcesAre, ByePackets, AppPackets, Concat, ContentOk, ReasonBytes, WithItem;
      if !areBuilding {
        return Failure(NotBuilding);
      }
      if |ssrcs| > 31 {
        return Failure(TooManySSRCs);
      }
      var packSize, zeroBytes := 4 + 4 * |ssrcs|, 0;
      if |reason| > 0 {
        packSize := packSize + 1;
        packSize := packSize + |reason|;
        var r := packSize % 4;
        if r != 0 {
          zeroBytes := 4 - r;
          packSize := packSize + zeroBytes;
        }
      }
      ghost var bye := Bye(ssrcs, reason);
      ByeSize(bye, zeroBytes, packSize);
      PacketAdds(headerLength != 0, content, bye, App(0, 0, [0, 0, 0, 0], []));
      var others := TotalBytes();
      if others + packSize > maximumPacketSize {
        return Failure(NotEnoughBytesLeft);
      }
      var packetData := WriteBye(ssrcs, reason, zeroBytes, packSize);
      PushBye(packetData, bye);
      status := Success;
    }

    /** A finished BYE packet goes on the list. */
    method PushBye(packetData: seq<byte>, ghost bye: Bye)
      requires Valid() && areBuilding && ByeOk(bye) && packetData == ByeBytes(bye)
      modifies this`byePackets, this`byeSize, this`content
      ensures Valid() && content == old(content).(byes := old(content).byes + [bye])
    {
      hide Concat, SourcesAre, ByeBytes, BlockBytes, InfoBytes, BE32, ContentOk, ByeOk, AppOk, AppPackets, ByePackets;
      WithOk(State(), Op.AddBye(bye));
      ByesOfContent(content);
      ByePacketsAppend(content.byes, bye);
      byePackets := byePackets + [packetData];
      byeSize := byeSize + |packetData|;
      content := content.(byes := content.byes + [bye]);
    }

    /** A finished APP packet goes on the list. */
    method PushApp(packetData: seq<byte>, ghost app: App)
      requires Valid() && areBuilding && AppOk(app) && packetData == AppBytes(app)
      modifies this`appPackets, this`appSize, this`content
      ensures Valid() && content == old(content).(apps := old(content).apps + [app])
    {
      hide Concat, SourcesAre, AppBytes, BlockBytes, InfoBytes, BE32, ContentOk, ByeOk, AppOk, AppPackets, ByePackets;
      WithOk(State(), Op.AddApp(app));
      ByesOfContent(content);
      AppPacketsAppend(content.apps, app);
      appPackets := appPackets + [packetData];
      appSize := appSize + |packetData|;
      content := content.(apps := content.apps + [app]);
    }

    method AddAPPPacket(subtype: byte, ssrc: uint32, name: seq<byte>, data: seq<byte>) returns (status: Status)
      requires Valid() && |name| == 4
      modifies this`appPackets, this`appSize, this`content
      ensures Valid()
      ensures
        if !areBuilding then status == Failure(NotBuilding) && content == old(content)
        else if subtype > 31 then status == Failure(IllegalSubtype) && content == old(content)
        else if |data| % 4 != 0 then status == Failure(IllegalAppDataLength) && content == old(content)
        else if |data| / 4 + 2 > 65535 then status == Failure(AppDataLenTooBig) && content == old(content)
        else
          var c := old(content).(apps := old(content).apps + [App(subtype, ssrc, name, data)]);
          && ContentOk(c)
          && status == (if Needed(headerLength != 0, c) > maximumPacketSize then Failure(NotEnoughBytesLeft)
                        else Success)
          && content == if status.Success? then c else old(content)
      ensures areBuilding && AppOk(App(subtype, ssrc, name, data)) ==>
        State() == After(old(State()), Op.AddApp(App(subtype, ssrc, name, data)))
    {
      hide Needed, AppBytes, ReportValid, SourcesAre, ByePackets, AppPackets, Concat, ContentOk, WithItem;
      if !areBuilding {
        return Failure(NotBuilding);
      }
      if subtype > 31 {
        return Failure(IllegalSubtype);
      }
      if |data| % 4 != 0 {
        return Failure(IllegalAppDataLength);
      }
      if |data| / 4 + 2 > 65535 {
        return Failure(AppDataLenTooBig);
      }
      ghost var app := App(subtype, ssrc, name, data);
      var packSize := 4 + 8 + |data|;
      PacketAdds(headerLength != 0, content, Bye([], []), app);
      var others := TotalBytes();
      if others + packSize > maximumPacketSize {
        return Failure(NotEnoughBytesLeft);
      }
      var packetData := WriteApp(subtype, ssrc, name, data);
      PushApp(packetData, app);
      status := Success;
    }

    // -------------------------------------------------------------- finishing

    /** The first `cur` bytes hold the packets `ps`, and the packet list describes them. */
    ghost predicate Written(buf: array<byte>, cur: nat, ps: seq<seq<byte>>)
      reads this`rtcpPackList, buf
    {
      && cur <= buf.Length && buf[..cur] == Concat(ps)
      && (forall p | p in ps :: |p| >= 4)
      && rtcpPackList == CP.Infos(ps, 0)
    }

    /** Adds the entry for a packet just written. */
    method Record(buf: array<byte>, cur: nat, size: nat, ghost ps: seq<seq<byte>>, ghost p: seq<byte>)
      requires cur + size <= buf.Length && |p| == size >= 4
      requires buf[..cur + size] == Concat(ps) + p && |Concat(ps)| == cur
      requires (forall q | q in ps :: |q| >= 4) && rtcpPackList == CP.Infos(ps, 0)
      modifies this`rtcpPackList
      ensures Written(buf, cur + size, ps + [p])
    {
      hide CP.Known, CP.Infos, Concat;
      var data := buf[cur..cur + size];
      assert data == buf[..cur + size][cur..] == p;
      var known := CP.Inspect(data);
      rtcpPackList := rtcpPackList + [CP.PacketInfo(data[1], cur, size, known)];
      CP.InfosAppend(ps, p, 0);
      ConcatAppend(ps, [p]);
      ConcatOne(p);
    }

    /** Copies finished packets. */
    method WriteAll(buf: array<byte>, start: nat, packets: seq<seq<byte>>, ghost ps: seq<seq<byte>>) returns (cur: nat)
      requires Written(buf, start, ps) && start + |Concat(packets)| <= buf.Length
      requires forall p | p in packets :: |p| >= 4
      modifies this`rtcpPackList, buf
      ensures cur == start + |Concat(packets)| && Written(buf, cur, ps + packets)
      ensures forall k | cur <= k < buf.Length :: buf[k] == old(buf[k])
    {
      hide CP.Infos, Concat;
      cur := start;
      assert packets[..0] == [] && packets[0..] == packets && ps + [] == ps;
      assert Concat<byte>([]) == [] by { ConcatNil(); }
      for i := 0 to |packets|
        invariant cur == start + |Concat(packets[..i])|
        invariant Written(buf, cur, ps + packets[..i])
        invariant forall k | start + |Concat(packets)| <= k < buf.Length :: buf[k] == old(buf[k])
      {
        var p := packets[i];
        assert packets == packets[..i] + ([p] + packets[i + 1..]);
        ConcatAppend(packets[..i], [p] + packets[i + 1..]);
        ConcatCons(p, packets[i + 1..]);
        var next := Put(buf, cur, p);
        Record(buf, cur, |p|, ps + packets[..i], p);
        ConcatAppend(packets[..i], [p]);
        ConcatOne(p);
        assert packets[..i + 1] == packets[..i] + [p];
        assert ps + packets[..i] + [p] == ps + packets[..i + 1];
        cur := next;
      }
      assert packets[..|packets|] == packets;
    }

    /** Puts the finished header in front of a packet whose other bytes are written. */
    static method PatchHeader(buf: array<byte>, cur: nat, at: nat, h: seq<byte>, ghost pre: seq<byte>,
        ghost body: seq<byte>)
      requires |h| == 4 && |pre| == cur && cur + 4 + |body| == at <= buf.Length
      requires buf[..cur] == pre && buf[cur + 4..at] == body
      modifies buf
      ensures buf[..at] == pre + h + body
      ensures forall k | at <= k < buf.Length :: buf[k] == old(buf[k])
    {
      Store(buf, cur, h);
      assert buf[..at] == pre + h + body;
    }

    /** Copies report blocks from `it` on, at most 31. */
    method CopyBlocks(buf: array<byte>, from: nat, it: nat) returns (at: nat, next: nat, count: nat)
      requires ReportValid() && it <= |reportBlocks| && from + 24 * Min(31, |reportBlocks| - it) <= buf.Length
      modifies buf
      ensures count == Min(31, |reportBlocks| - it) && next == it + count && at == from + 24 * count
      ensures buf[..at] == old(buf[..from]) + BlocksBytes(content.blocks[it..next])
      ensures forall k | at <= k < buf.Length :: buf[k] == old(buf[k])
    {
      hide BlockBytes;
      ghost var front := buf[..from];
      at, next, count := from, it, 0;
      assert content.blocks[it..it] == [] && front + [] == front;
      while next < |reportBlocks| && count < 31
        invariant it <= next <= |reportBlocks| && next == it + count && count <= 31
        invariant at == from + 24 * count && at <= buf.Length
        invariant buf[..at] == front + BlocksBytes(content.blocks[it..next])
        invariant forall k | at <= k < buf.Length :: buf[k] == old(buf[k])
      {
        at := Put(buf, at, reportBlocks[next]);
        assert content.blocks[it..next + 1] == content.blocks[it..next] + [content.blocks[next]];
        BlocksAppend(content.blocks[it..next], content.blocks[next]);
        Assoc(front, BlocksBytes(content.blocks[it..next]), reportBlocks[next]);
        next := next + 1;
        count := count + 1;
      }
    }

    /** One report packet with the blocks from `it` on, at most 31; count and length come last. */
    method WriteReport(buf: array<byte>, cur: nat, withInfo: bool, it: nat, ghost p: seq<byte>)
      returns (at: nat, next: nat)
      requires ReportValid() && headerLength != 0 && it <= |reportBlocks|
      requires withInfo ==> isSR
      requires p == ReportPacket(content.ssrc, if withInfo then content.info else None,
                                 content.blocks[it..it + Min(31, |reportBlocks| - it)])
      requires cur + |p| <= buf.Length
      modifies buf
      ensures next == it + Min(31, |reportBlocks| - it)
      ensures at == cur + |p| && buf[..at] == old(buf[..cur]) + p
      ensures forall k | at <= k < buf.Length :: buf[k] == old(buf[k])
    {
      hide BlocksBytes, BE32, BE16, InfoBytes, ReportValid, ReportPacket, Header;
      ghost var pre, info := buf[..cur], if withInfo then content.info else None;
      BlockCount();
      InfoKind();
      ghost var mine := content.blocks[it..it + Min(31, |reportBlocks| - it)];
      ReportSize(content.ssrc, info, mine);
      var packetType, count := if withInfo then SR else RR, 0;
      ghost var head;
      at, next, count, head := WriteReportBody(buf, cur, packetType, withInfo, it, mine);
      ReportLayout(content.ssrc, info, mine, head);
      Between(buf, cur, at, pre, [0x80, packetType, 0, 0], head, BlocksBytes(mine));
      var h := FinalHeader(count, packetType, at - cur);
      PatchHeader(buf, cur, at, h, pre, head + BlocksBytes(mine));
      Assoc(pre, h, head + BlocksBytes(mine));
    }

    /** The header once count and length are known. */
    static method FinalHeader(count: nat, packetType: byte, size: nat) returns (h: seq<byte>)
      requires count <= 31 && size >= 4
      ensures h == Header(count, packetType, size) && |h| == 4
    {
      hide BE16;
      h := [0x80 + count, packetType] + BE16((size / 4 - 1) % 0x1_0000);
    }

    /** Everything of a report packet, with room for its header. */
    method WriteReportBody(buf: array<byte>, cur: nat, packetType: byte, withInfo: bool, it: nat,
        ghost mine: seq<ReportBlock>)
        returns (at: nat, next: nat, count: nat, ghost head: seq<byte>)
      requires ReportValid() && headerLength != 0 && it <= |reportBlocks| && (withInfo ==> isSR)
      requires |content.blocks| == |reportBlocks| && mine == content.blocks[it..it + Min(31, |reportBlocks| - it)]
      requires cur + 8 + (if withInfo then 20 else 0) + 24 * |mine| <= buf.Length
      modifies buf
      ensures count == |mine| && next == it + count && at == cur + 4 + |head| + 24 * count
      ensures withInfo ==> content.info.Some?
      ensures head == BE32(content.ssrc) + if withInfo then InfoBytes(content.info.value) else []
      ensures at <= buf.Length && buf[..at] == old(buf[..cur]) + [0x80, packetType, 0, 0] + head + BlocksBytes(mine)
      ensures forall k | at <= k < buf.Length :: buf[k] == old(buf[k])
    {
      hide BlocksBytes, BE32, InfoBytes, ReportValid;
      var h := ReportHead(withInfo);
      head := h;
      at := Put(buf, cur, [0x80, packetType, 0, 0]);
      at := Put(buf, at, h);
      at, next, count := CopyBlocks(buf, at, it);
    }

    /** Our identifier and, in an SR, the sender information. */
    method ReportHead(withInfo: bool) returns (head: seq<byte>)
      requires ReportValid() && headerLength != 0 && (withInfo ==> isSR)
      ensures withInfo ==> content.info.Some?
      ensures head == BE32(content.ssrc) + if withInfo then InfoBytes(content.info.value) else []
    {
      hide BE32, InfoBytes;
      head := if withInfo then headerData else headerData[..4];
    }

    /** What stands between `cur` and `at` once four parts are written. */
    static lemma Between(buf: array<byte>, cur: nat, at: nat, pre: seq<byte>, h: seq<byte>, head: seq<byte>,
        blocks: seq<byte>)
      requires |pre| == cur && |h| == 4 && at <= buf.Length && buf[..at] == pre + h + head + blocks
      ensures cur + 4 + |head + blocks| == at && buf[..cur] == pre && buf[cur + 4..at] == head + blocks
    {
      assert buf[..at] == pre + h + (head + blocks);
      assert buf[cur + 4..at] == buf[..at][cur + 4..];
      assert buf[..cur] == buf[..at][..cur];
    }

    /** One round of the loop over the report blocks: a packet and its entry in the list. */
    method WriteNextReport(buf: array<byte>, cur: nat, withInfo: bool, it: nat, ghost ps: seq<seq<byte>>,
        ghost p: seq<byte>)
        returns (at: nat, next: nat)
      requires ReportValid() && headerLength != 0 && it <= |reportBlocks| && Written(buf, cur, ps)
      requires withInfo ==> isSR
      requires p == ReportPacket(content.ssrc, if withInfo then content.info else None,
                                 content.blocks[it..it + Min(31, |reportBlocks| - it)])
      requires cur + |p| <= buf.Length
      modifies this`rtcpPackList, buf
      ensures next == it + Min(31, |reportBlocks| - it)
      ensures at == cur + |p| && Written(buf, at, ps + [p])
      ensures forall k | at <= k < buf.Length :: buf[k] == old(buf[k])
    {
      assert |p| >= 4 by {
        ReportSize(content.ssrc, if withInfo then content.info else None,
          content.blocks[it..it + Min(31, |reportBlocks| - it)]);
      }
      hide ReportPacket, CP.Infos, Concat, ReportValid;
      at, next := WriteReport(buf, cur, withInfo, it, p);
      Record(buf, cur, at - cur, ps, p);
    }

    method WriteReports(buf: array<byte>) returns (cur: nat)
      requires ReportValid() && headerLength != 0 && rtcpPackList == []
      requires |Concat(ReportPackets(content.ssrc, content.info, content.blocks))| <= buf.Length
      modifies this`rtcpPackList, buf
      ensures Written(buf, cur, ReportPackets(content.ssrc, content.info, content.blocks))
      ensures forall k | cur <= k < buf.Length :: buf[k] == old(buf[k])
    {
      hide CP.Infos, Concat, ReportPacket, ReportPackets, ReportValid;
      ghost var all := ReportPackets(content.ssrc, content.info, content.blocks);
      ghost var ps: seq<seq<byte>> := [];
      cur := 0;
      var it, firstPacket, done := 0, true, false;
      ConcatNil();
      InfosNil();
      assert content.blocks[0..] == content.blocks && [] + all == all;
      assert |reportBlocks| == |content.blocks| by { BlockCount(); }
      while !done
        invariant it <= |reportBlocks| && Written(buf, cur, ps)
        invariant firstPacket ==> it == 0
        invariant !done ==>
          all == ps + ReportPackets(content.ssrc, if firstPacket then content.info else None, content.blocks[it..])
        invariant !firstPacket && !done ==> it < |reportBlocks|
        invariant done ==> ps == all
        invariant forall k | cur <= k < buf.Length :: buf[k] == old(buf[k])
        decreases !done, |reportBlocks| - it
      {
        ghost var info, rest := if firstPacket then content.info else None, content.blocks[it..];
        ghost var p := ReportPacket(content.ssrc, info, rest[..Min(31, |rest|)]);
        ghost var tail := if |rest| <= 31 then [] else ReportPackets(content.ssrc, None, rest[31..]);
        ReportsStep(content.ssrc, info, rest);
        NextPacket(all, ps, p, tail);
        assert rest[..Min(31, |rest|)] == content.blocks[it..it + Min(31, |reportBlocks| - it)];
        assert isSR == content.info.Some? by { InfoKind(); }
        cur, it := WriteNextReport(buf, cur, firstPacket && isSR, it, ps, p);
        ps := ps + [p];
        firstPacket := false;
        done := it == |reportBlocks|;
        assert !done ==> rest[31..] == content.blocks[it..];
      }
    }

    lemma InfoKind()
      requires ReportValid()
      ensures isSR == content.info.Some?
    {
    }

    lemma BlockCount()
      requires ReportValid()
      ensures |reportBlocks| == |content.blocks|
    {
    }

    /** The items of one SDES chunk behind the first `from` bytes. */
    method WriteItems(buf: array<byte>, from: nat, s: SDESSource, ghost c: Chunk) returns (at: nat)
      requires SourceIs(s, c) && from + ItemOffset(c.items, |c.items|) <= buf.Length
      modifies buf
      ensures at == from + ItemOffset(c.items, |c.items|) && buf[..at] == old(buf[..from]) + ItemsBytes(c.items)
      ensures forall k | at <= k < buf.Length :: buf[k] == old(buf[k])
    {
      hide ItemBytes, ItemOffset, ItemsBytes, ItemOk;
      ghost var pre, size := buf[..from], ItemOffset(c.items, |c.items|);
      at := from;
      NoItemBytes(c.items);
      assert buf[..at] == pre + [];
      for i := 0 to |s.items|
        invariant at == from + ItemOffset(c.items, i) <= from + size
        invariant forall x | x in c.items[..i] :: ItemOk(x)
        invariant buf[..at] == pre + ItemsBytes(c.items[..i])
        invariant forall k | from + size <= k < buf.Length :: buf[k] == old(buf[k])
      {
        ItemsBytesStep(c.items, i);
        at := Put(buf, at, s.items[i]);
        Assoc(pre, ItemsBytes(c.items[..i]), ItemBytes(c.items[i]));
      }
      assert c.items[..|s.items|] == c.items;
    }

    /** One SDES chunk behind the first `from` bytes; the packet starts at `start`. */
    method WriteChunk(buf: array<byte>, start: nat, from: nat, s: SDESSource, ghost c: Chunk) returns (at: nat)
      requires SourceIs(s, c) && start <= from && (from - start) % 4 == 0 && from + ChunkSize(c) <= buf.Length
      modifies buf
      ensures at == from + ChunkSize(c) && buf[..at] == old(buf[..from]) + ChunkBytes(c)
      ensures forall k | at <= k < buf.Length :: buf[k] == old(buf[k])
    {
      hide Align, BE32, ItemBytes, ItemOffset, ItemsBytes, ItemOk;
      ghost var pre, size := buf[..from], ItemOffset(c.items, |c.items|);
      at := Put(buf, from, BE32(s.ssrc));
      at := WriteItems(buf, at, s, c);
      at := Put(buf, at, [0]);
      var r := (at - start) % 4;
      AlignShift(from - start, 4 + size + 1);
      AlignUp(at - start);
      if r != 0 {
        at := Put(buf, at, Zeros(4 - r));
      }
      ChunkLayout(c, pre);
    }

    static lemma ChunkLayout(c: Chunk, pre: seq<byte>)
      requires ChunkOk(c)
      ensures
        var pad := ChunkSize(c) - (4 + ItemOffset(c.items, |c.items|) + 1);
        && pad >= 0 && ItemOffset(c.items, |c.items|) == |ItemsBytes(c.items)|
        && pre + ChunkBytes(c) == pre + BE32(c.ssrc) + ItemsBytes(c.items) + [0] + Zeros(pad)
        && (pad == 0 ==> pre + ChunkBytes(c) == pre + BE32(c.ssrc) + ItemsBytes(c.items) + [0])
    {
      hide BE32, ItemBytes, ItemOffset, ItemsBytes;
      assert ItemOffset(c.items, |c.items|) == |ItemsBytes(c.items)|;
    }

    /** Writes the chunks of the sources from `it` on, at most 31, of the packet that starts at `start`. */
    method CopyChunks(buf: array<byte>, start: nat, from: nat, it: nat, ghost mine: seq<Chunk>)
        returns (at: nat, next: nat, sourceCount: nat)
      requires SourcesAre(sdesSources, content.chunks) && it <= |sdesSources|
      requires mine == content.chunks[it..it + Min(31, |sdesSources| - it)] && ChunksOk(mine)
      requires start <= from && (from - start) % 4 == 0 && from + SizeOfChunks(mine) <= buf.Length
      modifies buf
      ensures sourceCount == |mine| && next == it + sourceCount && at == from + SizeOfChunks(mine)
      ensures buf[..at] == old(buf[..from]) + ChunksBytes(mine)
      ensures forall k | at <= k < buf.Length :: buf[k] == old(buf[k])
    {
      hide ChunkBytes, ChunkSize, SourceIs, SizeOfChunks, ChunksOk;
      ghost var front := buf[..from];
      at, next, sourceCount := from, it, 0;
      NoChunkBytes();
      assert mine[..0] == [] && front + [] == front;
      while next < |sdesSources| && sourceCount < 31
        invariant next == it + sourceCount && sourceCount <= |mine| && ChunksOk(mine[..sourceCount])
        invariant at == from + SizeOfChunks(mine[..sourceCount]) <= from + SizeOfChunks(mine) && (at - start) % 4 == 0
        invariant buf[..at] == front + ChunksBytes(mine[..sourceCount])
        invariant forall k | from + SizeOfChunks(mine) <= k < buf.Length :: buf[k] == old(buf[k])
      {
        ghost var c := content.chunks[next];
        assert SourceIs(sdesSources[next], c) && mine[sourceCount] == c;
        ChunksBytesStep(mine, sourceCount);
        ChunkSizeAligned(c);
        at := WriteChunk(buf, start, at, sdesSources[next], c);
        Assoc(front, ChunksBytes(mine[..sourceCount]), ChunkBytes(c));
        next := next + 1;
        sourceCount := sourceCount + 1;
      }
      assert mine[..sourceCount] == mine;
    }

    /** One SDES packet with the sources from `it` on, at most 31. */
    method WriteSdes(buf: array<byte>, cur: nat, it: nat, ghost mine: seq<Chunk>) returns (at: nat, next: nat)
      requires SourcesAre(sdesSources, content.chunks) && it <= |sdesSources|
      requires mine == content.chunks[it..it + Min(31, |sdesSources| - it)] && ChunksOk(mine)
      requires cur + 4 + SizeOfChunks(mine) <= buf.Length
      modifies buf
      ensures next == it + |mine| && at == cur + |SdesBytes(mine)| <= buf.Length
      ensures buf[..at] == old(buf[..cur]) + SdesBytes(mine)
      ensures forall k | at <= k < buf.Length :: buf[k] == old(buf[k])
    {
      hide BE16, ChunksBytes, SizeOfChunks, SourceIs, ChunksOk;
      ghost var pre, body := buf[..cur], ChunksBytes(mine);
      at := Put(buf, cur, [0x80, SDES, 0, 0]);
      var sourceCount;
      at, next, sourceCount := CopyChunks(buf, cur, at, it, mine);
      SizeOfChunksIs(mine);
      assert buf[cur + 4..at] == buf[..at][cur + 4..] == body;
      assert buf[..cur] == buf[..at][..cur] == pre;
      var h := FinalHeader(sourceCount, SDES, at - cur);
      PatchHeader(buf, cur, at, h, pre, body);
      Assoc(pre, h, body);
    }

    /** One round of the loop over the sources: a packet and its entry in the list. */
    method WriteNextSdes(buf: array<byte>, cur: nat, it: nat, ghost mine: seq<Chunk>, ghost ps: seq<seq<byte>>)
        returns (at: nat, next: nat)
      requires SourcesAre(sdesSources, content.chunks) && it <= |sdesSources| && Written(buf, cur, ps)
      requires mine == content.chunks[it..it + Min(31, |sdesSources| - it)] && ChunksOk(mine)
      requires cur + 4 + SizeOfChunks(mine) <= buf.Length && |SdesBytes(mine)| >= 4
      modifies this`rtcpPackList, buf
      ensures next == it + |mine| && at == cur + |SdesBytes(mine)| && Written(buf, at, ps + [SdesBytes(mine)])
      ensures forall k | at <= k < buf.Length :: buf[k] == old(buf[k])
    {
      hide CP.Infos, Concat, SdesBytes, SourceIs, ChunksOk, SizeOfChunks;
      at, next := WriteSdes(buf, cur, it, mine);
      Record(buf, cur, at - cur, ps, SdesBytes(mine));
    }

    method WriteAllSdes(buf: array<byte>, start: nat, ghost before: seq<seq<byte>>) returns (cur: nat)
      requires SourcesAre(sdesSources, content.chunks) && ChunksOk(content.chunks) && Written(buf, start, before)
      requires start + |Concat(SdesPackets(content.chunks))| <= buf.Length
      modifies this`rtcpPackList, buf
      ensures Written(buf, cur, before + SdesPackets(content.chunks))
      ensures forall k | cur <= k < buf.Length :: buf[k] == old(buf[k])
    {
      hide CP.Infos, Concat, SdesBytes, SdesPackets, SourcesAre, ChunksOk, SizeOfChunks;
      NoSdes();
      assert |sdesSources| == |content.chunks| by { SourceCount(); }
      ghost var all := before + SdesPackets(content.chunks);
      ConcatAppend(before, SdesPackets(content.chunks));
      ghost var ps := before;
      cur := start;
      var it := 0;
      assert content.chunks[0..] == content.chunks;
      while it < |sdesSources|
        invariant it <= |sdesSources| && Written(buf, cur, ps)
        invariant ChunksOk(content.chunks[it..]) && all == ps + SdesPackets(content.chunks[it..])
        invariant forall k | cur <= k < buf.Length :: buf[k] == old(buf[k])
      {
        ghost var rest := content.chunks[it..];
        ghost var n := Min(31, |rest|);
        SdesStep(rest);
        ghost var p := SdesBytes(rest[..n]);
        NextPacket(all, ps, p, SdesPackets(rest[n..]));
        assert rest[..n] == content.chunks[it..it + n];
        assert rest[n..] == content.chunks[it + n..];
        cur, it := WriteNextSdes(buf, cur, it, rest[..n], ps);
        ps := ps + [p];
      }
      assert content.chunks[it..] == [] && ps + [] == ps;
    }

    lemma SourceCount()
      requires SourcesAre(sdesSources, content.chunks)
      ensures |sdesSources| == |content.chunks|
    {
    }

    /** `ClearBuildBuffers` */
    method ClearBuildBuffers()
      modifies this`isSR, this`headerLength, this`headerData, this`reportBlocks, this`sdesSources,
               this`byePackets, this`byeSize, this`appPackets, this`appSize, this`content
      ensures Valid() && content == EMPTY && headerLength == 0
    {
      isSR, headerLength, headerData, reportBlocks, sdesSources := false, 0, [], [], [];
      byePackets, byeSize, appPackets, appSize := [], 0, [], 0;
      content := EMPTY;
    }

    /** Serialises everything. The size is not compared with the limit again: exactly if what was added
        does not fit (see `CompoundRuns.FitsExactly`), bytes are written behind the caller's part of an
        external buffer. */
    method EndBuild() returns (status: Status)
      requires Valid() && rtcpPackList == []
      requires external <==> buffer != null
      requires buffer != null ==> Size() <= buffer.Length
      modifies this, buffer
      ensures Valid()
      ensures status ==
        if !old(areBuilding) then Failure(NotBuilding)
        else if old(headerLength) == 0 then Failure(NoReportPresent)
        else Success
      ensures status.Failure? ==> content == old(content) && compoundPacket == old(compoundPacket)
      ensures status.Success? ==>
        && !areBuilding && compoundPacket != null
        && (compoundPacket == old(buffer) || (old(buffer) == null && fresh(compoundPacket)))
        && compoundPacketLength == |CompoundBytes(old(content))| == old(Size()) <= compoundPacket.Length
        && compoundPacket[..compoundPacketLength] == CompoundBytes(old(content))
        && (forall p | p in Packets(old(content)) :: |p| >= 4)
        && rtcpPackList == CP.Infos(Packets(old(content)), 0)
        && (compoundPacketLength <= old(maximumPacketSize) <==> old(Fits()))
      ensures old(buffer) != null ==>
        forall k | 0 <= k < old(buffer).Length ::
          (status.Success? ==> k >= compoundPacketLength) ==> old(buffer)[k] == old(buffer[k])
    {
      hide Needed, ReportValid, SourcesAre, CP.Infos, CompoundBytes, Packets, AppPackets, ByePackets, Concat;
      if !areBuilding {
        return Failure(NotBuilding);
      }
      if headerLength == 0 {
        return Failure(NoReportPresent);
      }
      var len := TotalBytes();
      var buf := buffer;
      if !external {
        buf := new byte[len];
      }
      var cur := WritePackets(buf, len);
      compoundPacket := buf;
      compoundPacketLength := len;
      areBuilding := false;
      ClearBuildBuffers();
      status := Success;
    }

    /** The four sections of `EndBuild`. */
    method WritePackets(buf: array<byte>, len: nat) returns (cur: nat)
      requires Valid() && headerLength != 0 && rtcpPackList == []
      requires len == Size() <= buf.Length
      modifies this`rtcpPackList, buf
      ensures cur == len == |CompoundBytes(content)| && buf[..len] == CompoundBytes(content)
      ensures (forall p | p in Packets(content) :: |p| >= 4) && rtcpPackList == CP.Infos(Packets(content), 0)
      ensures forall k | len <= k < buf.Length :: buf[k] == old(buf[k])
    {
      hide CP.Infos, Concat, ReportPackets, SdesPackets, AppPackets, ByePackets, ReportNeeded, SdesNeeded,
        ReportValid, SourcesAre;
      SizeExact(content);
      ghost var r, s := ReportPackets(content.ssrc, content.info, content.blocks), SdesPackets(content.chunks);
      ghost var a, b := AppPackets(content.apps), ByePackets(content.byes);
      ConcatAppend(r, s);
      ConcatAppend(r + s, a);
      ConcatAppend(r + s + a, b);
      SectionsReadable(content);
      cur := WriteReports(buf);
      cur := WriteAllSdes(buf, cur, r);
      cur := WriteAll(buf, cur, appPackets, r + s);
      cur := WriteAll(buf, cur, byePackets, r + s + a);
    }
  }

  lemma SectionsReadable(c: Content)
    requires ContentOk(c)
    ensures forall p | p in AppPackets(c.apps) :: |p| >= 4
    ensures forall p | p in ByePackets(c.byes) :: |p| >= 4
  {
    AppsBuilt(c.apps);
    ByesBuilt(c.byes);
  }

  /** Bookkeeping for writing one more packet of `all`. */
  lemma NextPacket(all: seq<seq<byte>>, ps: seq<seq<byte>>, p: seq<byte>, tail: seq<seq<byte>>)
    requires all == ps + ([p] + tail)
    ensures all == ps + [p] + tail
    ensures |Concat(ps)| + |p| <= |Concat(all)|
    ensures tail == [] ==> ps + [p] == all
  {
    Assoc(ps, [p], tail);
    ConcatAppend(ps, [p]);
    ConcatAppend(ps + [p], tail);
    ConcatOne(p);
  }

  lemma NoSdes()
    ensures SdesPackets([]) == []
  {
  }

  lemma NoItemBytes(items: seq<Item>)
    ensures items[..0] == [] && ItemsBytes(items[..0]) == [] && ItemOffset(items, 0) == 0
  {
  }

  lemma NoChunkBytes()
    ensures ChunksOk([]) && ChunksBytes([]) == [] && SizeOfChunks([]) == 0
  {
  }

  lemma ItemsBytesStep(items: seq<Item>, i: nat)
    requires i < |items| && forall x | x in items :: ItemOk(x)
    ensures forall x | x in items[..i] :: ItemOk(x)
    ensures forall x | x in items[..i + 1] :: ItemOk(x)
    ensures ItemsBytes(items[..i + 1]) == ItemsBytes(items[..i]) + ItemBytes(items[i])
    ensures ItemOffset(items, i + 1) == ItemOffset(items, i) + |ItemBytes(items[i])| <= ItemOffset(items, |items|)
  {
    hide ItemBytes;
    assert items[..i + 1] == items[..i] + [items[i]];
    ItemsBytesAppend(items[..i], items[i]);
    ItemOffsetStep(items, i);
    ItemOffsetGrows(items, i + 1);
    assert |ItemBytes(items[i])| == 2 + |items[i].data| by { ItemSize(items[i]); }
  }

  lemma ItemSize(i: Item)
    requires ItemOk(i)
    ensures |ItemBytes(i)| == 2 + |i.data|
  {
  }

  lemma {:induction false} ItemOffsetGrows(items: seq<Item>, i: nat)
    requires i <= |items|
    ensures ItemOffset(items, i) <= ItemOffset(items, |items|)
    decreases |items| - i
  {
    if i < |items| {
      ItemOffsetStep(items, i);
      ItemOffsetGrows(items, i + 1);
    }
  }

  lemma {:induction false} ItemsBytesAppend(items: seq<Item>, i: Item)
    requires (forall x | x in items :: ItemOk(x)) && ItemOk(i)
    ensures ItemsBytes(items + [i]) == ItemsBytes(items) + ItemBytes(i)
  {
    hide ItemBytes, ItemOk, ItemOffset;
    if items == [] {
      assert [i][1..] == [];
    } else {
      assert (items + [i])[1..] == items[1..] + [i];
      ItemsBytesAppend(items[1..], i);
    }
  }

  lemma ChunkSizeAligned(c: Chunk)
    ensures ChunkSize(c) % 4 == 0
  {
  }

  lemma ChunksOkSlices(cs: seq<Chunk>, i: nat)
    requires i < |cs| && ChunksOk(cs)
    ensures ChunkOk(cs[i]) && ChunksOk(cs[..i]) && ChunksOk(cs[..i + 1])
  {
    hide ChunkOk;
  }

  lemma ChunksBytesStep(cs: seq<Chunk>, i: nat)
    requires i < |cs| && ChunksOk(cs)
    ensures ChunkOk(cs[i]) && ChunksOk(cs[..i]) && ChunksOk(cs[..i + 1])
    ensures ChunksBytes(cs[..i + 1]) == ChunksBytes(cs[..i]) + ChunkBytes(cs[i])
    ensures SizeOfChunks(cs[..i + 1]) == SizeOfChunks(cs[..i]) + ChunkSize(cs[i]) <= SizeOfChunks(cs)
  {
    hide ChunksOk, ChunkOk, ChunksBytes, ChunkBytes, ChunkSize, SizeOfChunks;
    ChunksOkSlices(cs, i);
    assert cs[..i + 1] == cs[..i] + [cs[i]];
    SizeOfChunksAppend(cs[..i], cs[i]);
    SizeOfChunksSplit(cs, i + 1);
    ChunksBytesAppend(cs[..i], cs[i]);
  }

  lemma {:induction false} ChunksBytesAppend(cs: seq<Chunk>, c: Chunk)
    requires ChunksOk(cs) && ChunkOk(c)
    ensures ChunksOk(cs + [c]) && ChunksBytes(cs + [c]) == ChunksBytes(cs) + ChunkBytes(c)
  {
    hide ChunkBytes, ChunkOk;
    if cs == [] {
      assert [c][1..] == [];
    } else {
      assert (cs + [c])[1..] == cs[1..] + [c];
      ChunksBytesAppend(cs[1..], c);
    }
  }

  lemma SdesStep(cs: seq<Chunk>)
    requires ChunksOk(cs) && cs != []
    ensures
      var n := Min(31, |cs|);
      && ChunksOk(cs[..n]) && ChunksOk(cs[n..])
      && SdesPackets(cs) == [SdesBytes(cs[..n])] + SdesPackets(cs[n..])
      && |SdesBytes(cs[..n])| == 4 + SizeOfChunks(cs[..n])
  {
    hide ChunkOk, ChunksBytes;
    SizeOfChunksIs(cs[..Min(31, |cs|)]);
    assert |cs| <= 31 ==> cs[..|cs|] == cs && cs[|cs|..] == [];
  }

  lemma ByeSize(b: Bye, zeroBytes: nat, packSize: nat)
    requires ByeOk(b)
    requires b.reason == [] ==> zeroBytes == 0 && packSize == 4 + 4 * |b.ssrcs|
    requires b.reason != [] ==>
      zeroBytes < 4 && packSize % 4 == 0 && packSize == 4 + 4 * |b.ssrcs| + 1 + |b.reason| + zeroBytes
    ensures |ByeBytes(b)| == packSize
    ensures ReasonBytes(b.reason) == if b.reason == [] then [] else [|b.reason|] + b.reason + seq(zeroBytes, _ => 0)
  {
    assert b.reason != [] ==> zeroBytes == (4 - (1 + |b.reason|) % 4) % 4;
  }

  lemma ByeLayout(b: Bye, zeroBytes: nat, packSize: nat)
    requires ByeOk(b) && |ByeBytes(b)| == packSize
    requires ReasonBytes(b.reason) == if b.reason == [] then [] else [|b.reason|] + b.reason + seq(zeroBytes, _ => 0)
    ensures packSize >= 4
    ensures ByeBytes(b) == [] + Header(|b.ssrcs|, BYE, packSize) + Words(b.ssrcs) + ReasonBytes(b.reason)
    ensures b.reason == [] ==> ByeBytes(b) == [] + Header(|b.ssrcs|, BYE, packSize) + Words(b.ssrcs)
  {
  }

  lemma ConcatNil()
    ensures Concat<byte>([]) == []
  {
  }

  lemma InfosNil()
    ensures CP.Infos([], 0) == []
  {
  }

  lemma {:induction false} BlocksAppend(bs: seq<ReportBlock>, b: ReportBlock)
    ensures BlocksBytes(bs + [b]) == BlocksBytes(bs) + BlockBytes(b)
  {
    hide BlockBytes;
    if bs == [] {
      assert [b][1..] == [];
    } else {
      assert (bs + [b])[1..] == bs[1..] + [b];
      BlocksAppend(bs[1..], b);
    }
  }

  lemma ReportSize(ssrc: uint32, info: Option<SenderInfo>, bs: seq<ReportBlock>)
    requires |bs| <= 31
    ensures |ReportPacket(ssrc, info, bs)| == 8 + (if info.Some? then 20 else 0) + 24 * |bs|
  {
  }

  lemma ReportLayout(ssrc: uint32, info: Option<SenderInfo>, bs: seq<ReportBlock>, head: seq<byte>)
    requires |bs| <= 31
    requires head == BE32(ssrc) + if info.Some? then InfoBytes(info.value) else []
    ensures ReportPacket(ssrc, info, bs)
         == Header(|bs|, if info.Some? then SR else RR, 4 + |head| + 24 * |bs|) + (head + BlocksBytes(bs))
  {
    hide Header, BE32, InfoBytes, BlocksBytes;
    var i := if info.Some? then InfoBytes(info.value) else [];
    var h := Header(|bs|, if info.Some? then SR else RR, 4 + |head| + 24 * |bs|);
    Assoc(h, BE32(ssrc), i);
    Assoc(h, BE32(ssrc) + i, BlocksBytes(bs));
  }

  lemma ReportsStep(ssrc: uint32, info: Option<SenderInfo>, bs: seq<ReportBlock>)
    ensures
      var n := Min(31, |bs|);
      && 8 + (if info.Some? then 20 else 0) + 24 * n == |ReportPacket(ssrc, info, bs[..n])|
      && ReportPackets(ssrc, info, bs)
         == [ReportPacket(ssrc, info, bs[..n])] + if |bs| <= 31 then [] else ReportPackets(ssrc, None, bs[31..])
  {
    assert |bs| <= 31 ==> bs[..|bs|] == bs;
  }
}
