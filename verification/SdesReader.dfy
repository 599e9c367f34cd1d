/** `RTCPSDESPacket`: the validating constructor of rtcpsdespacket.cpp and the chunk and item
    iterators of rtcpsdespacket.h. */
module SdesReader {
  import opened Bytes
  import opened SdesPacket
  import opened RtcpPackets

  /** The chunks of an SDES packet, if it is of known format. */
  function ReadSdes(s: seq<byte>): Option<seq<Chunk>>
    requires |s| >= 4
  {
    match Unpadded(s)
    case None => None
    case Some(len) => ReadChunks(s[..len], 4, Count(s))
  }

  predicate KnownSdes(s: seq<byte>)
    requires |s| >= 4
  {
    ReadSdes(s).Some?
  }

  /** Behind the zero that ends an item list, up to the next 32-bit boundary. */
  method SkipZero(offset: nat, avail: nat) returns (ok: bool, next: nat, len: nat)
    requires avail >= 1
    ensures ok <==> Align(offset + 1) <= offset + avail
    ensures next + len == offset + avail && (ok ==> next == Align(offset + 1))
  {
    hide Align;
    AlignUp(offset + 1);
    next, len := offset + 1, avail - 1;
    var r := next % 4;
    if r != 0 {
      var addoffset := 4 - r;
      if addoffset > len {
        return false, next, len;
      }
      len := len - addoffset;
      next := next + addoffset;
    }
    ok := true;
  }

  /** Behind one item. */
  method SkipItem(s: seq<byte>, at: nat, avail: nat) returns (ok: bool, size: nat)
    requires at + avail == |s| && avail >= 1
    ensures ok <==> at + 2 <= |s| && at + 2 + s[at + 1] <= |s|
    ensures ok ==> size == 2 + s[at + 1] as int
  {
    if avail < 2 {
      return false, 0;
    }
    var itemlen: nat := s[at + 1];
    if itemlen > avail - 2 {
      return false, 0;
    }
    ok, size := true, 2 + itemlen;
  }

  /** One chunk of the constructor's outer loop: the item list that starts at `chunk + 4`. */
  method SkipChunk(s: seq<byte>, chunk: nat, avail: nat) returns (ok: bool, chunkoffset: nat, len: nat)
    requires chunk % 4 == 0 && chunk + avail == |s|
    ensures ok <==> avail >= 8 && ReadItems(s, chunk + 4).Items?
    ensures ok ==> chunk + chunkoffset == ReadItems(s, chunk + 4).end && chunk + chunkoffset + len == |s|
    ensures ok ==> chunkoffset % 4 == 0
  {
    hide Align, ReadItems;
    chunkoffset, len := 4, avail;
    if len < 8 {
      return false, chunkoffset, len;
    }
    len := len - 4;
    var done := false;
    ghost var all := ReadItems(s, chunk + 4);
    while !done
      invariant chunk + chunkoffset + len == |s|
      invariant !done ==>
        var rest := ReadItems(s, chunk + chunkoffset);
        (all.Items? <==> rest.Items?) && (all.Items? ==> all.end == rest.end)
      invariant done ==> all.Items? && all.end == chunk + chunkoffset && chunkoffset % 4 == 0
      decreases !done, len
    {
      ReadItemsStep(s, chunk + chunkoffset);
      if len < 1 {
        return false, chunkoffset, len;
      }
      if s[chunk + chunkoffset] == 0 {
        AlignShift(chunk, chunkoffset + 1);
        ok, chunkoffset, len := SkipZero(chunkoffset, len);
        if !ok {
          return false, chunkoffset, len;
        }
        done := true;
      } else {
        var size;
        ok, size := SkipItem(s, chunk + chunkoffset, len);
        if !ok {
          return false, chunkoffset, len;
        }
        len := len - size;
        chunkoffset := chunkoffset + size;
      }
    }
    ok := true;
  }

  // ---------------------------------------------------------------- PRIV items

  /** The value of a PRIV item: the prefix length, the prefix, the value. */
  function PrivateData(prefix: seq<byte>, value: seq<byte>): seq<byte>
    requires |prefix| <= 255
  {
    [|prefix|] + prefix + value
  }

  /** `GetPRIVPrefixLength`, `GetPRIVPrefixData`, `GetPRIVValueLength` and `GetPRIVValueData`: prefix
      and value of an item, both empty when it is not a well formed PRIV item. */
  function ReadPrivate(item: Item): (seq<byte>, seq<byte>) {
    if item.id != PRIVATE || item.data == [] || item.data[0] > |item.data| - 1 then ([], [])
    else (item.data[1..1 + item.data[0]], item.data[1 + item.data[0]..])
  }

  lemma PrivateRoundTrip(prefix: seq<byte>, value: seq<byte>)
    requires |prefix| + 1 + |value| <= 255
    ensures ReadPrivate(Item(PRIVATE, PrivateData(prefix, value))) == (prefix, value)
  {
    var d := PrivateData(prefix, value);
    assert d[1..1 + |prefix|] == prefix && d[1 + |prefix|..] == value;
  }

  // ---------------------------------------------------------------- validation

  /** One step of reading chunks, without the chunks. */
  lemma ReadChunksStep(s: seq<byte>, off: nat, n: nat)
    ensures n == 0 ==> (ReadChunks(s, off, n).Some? <==> off == |s|)
    ensures n > 0 ==>
      ReadChunks(s, off, n).Some?
        == (off + 8 <= |s| && ReadItems(s, off + 4).Items? && ReadChunks(s, ReadItems(s, off + 4).end, n - 1).Some?)
  {
  }

  /** The outer loop: whether `count` chunks fill the packet from its first chunk on. */
  method SkipChunks(s: seq<byte>, count: nat) returns (ok: bool)
    requires |s| >= 4
    ensures ok <==> ReadChunks(s, 4, count).Some?
  {
    hide ReadChunks, ReadItems;
    var len: nat, chunk: nat, ssrccount: nat := |s| - 4, 4, count;
    while ssrccount > 0 && len > 0
      invariant chunk + len == |s| && chunk % 4 == 0
      invariant ReadChunks(s, 4, count).Some? <==> ReadChunks(s, chunk, ssrccount).Some?
      decreases ssrccount
    {
      ReadChunksStep(s, chunk, ssrccount);
      var chunkoffset;
      ok, chunkoffset, len := SkipChunk(s, chunk, len);
      if !ok {
        return false;
      }
      ssrccount := ssrccount - 1;
      chunk := chunk + chunkoffset;
    }
    ReadChunksStep(s, chunk, ssrccount);
    ok := len == 0 && ssrccount == 0;
  }

  /** The constructor's decision whether the format is known. */
  method Validate(data: seq<byte>) returns (known: bool)
    requires |data| >= 4
    ensures known <==> KnownSdes(data)
  {
    hide ReadChunks;
    var ok, total := StripPadding(data);
    if !ok {
      return false;
    }
    var ssrccount: nat := data[0] % 0x20;
    if ssrccount == 0 {
      ReadChunksStep(data[..total], 4, 0);
      return total == 4;
    }
    if total < 4 {
      ReadChunksStep(data[..total], 4, ssrccount);
      return false;
    }
    known := SkipChunks(data[..total], ssrccount);
  }

  class RTCPSDESPacket {
    const data: seq<byte>
    const knownFormat: bool
    /** The pointer `currentchunk` as an offset into the packet, 0 for null. */
    var currentChunk: nat
    var curChunkNum: nat
    var itemOffset: nat
    /** Which chunk and which item the iterators stand at. */
    ghost var chunkIndex: nat
    ghost var itemIndex: nat

    constructor (data: seq<byte>)
      requires |data| >= 4
      ensures this.data == data && knownFormat == KnownSdes(data) && currentChunk == 0 && Valid()
    {
      var known := Validate(data);
      this.data, knownFormat := data, known;
      currentChunk, curChunkNum, itemOffset, chunkIndex, itemIndex := 0, 0, 0, 0, 0;
    }

    ghost function Chunks(): seq<Chunk>
      requires |data| >= 4 && KnownSdes(data)
    {
      ReadSdes(data).value
    }

    /** The position of item `j` of chunk `k`; `j` may be one past the last item. */
    ghost predicate StandsAt(k: nat, j: nat)
      requires |data| >= 4 && KnownSdes(data)
      reads this
    {
      var cs := Chunks();
      && k < |cs| && j <= |cs[k].items|
      && currentChunk == StartOf(4, cs, k) && curChunkNum == k + 1
      && itemOffset == 4 + ItemOffset(cs[k].items, j)
    }

    ghost predicate Valid()
      reads this
    {
      && |data| >= 4 && knownFormat == KnownSdes(data)
      && (currentChunk != 0 ==> knownFormat && StandsAt(chunkIndex, itemIndex))
    }

    function GetChunkCount(): (n: nat)
      requires |data| >= 4 && knownFormat == KnownSdes(data)
      ensures knownFormat ==> n == |Chunks()|
    {
      if knownFormat then
        ReadChunksLayout(data[..Unpadded(data).value], 4, Count(data));
        Count(data)
      else 0
    }

    /** Chunk `k` lies at its start; behind its items comes the next chunk. */
    lemma ChunkLayout(k: nat)
      requires |data| >= 4 && KnownSdes(data) && k < |Chunks()|
      ensures
        var s, cs := data[..Unpadded(data).value], Chunks();
        var at := StartOf(4, cs, k);
        && |cs| == Count(data) && 4 <= at && at + 4 <= |s| && U32(data, at) == cs[k].ssrc
        && ReadItems(s, at + 4).Items? && ReadItems(s, at + 4).items == cs[k].items
        && StartOf(4, cs, k + 1) == at + ChunkSize(cs[k])
    {
      hide U32;
      var s := data[..Unpadded(data).value];
      ReadChunksLayout(s, 4, Count(data));
      ReadChunksFrom(s, 4, Count(data), k);
      StartOfStep(4, Chunks(), k);
      var at := StartOf(4, Chunks(), k);
      ReadSlice(data, at, s[at..at + 4]);
      ReadSlice(s, at, s[at..at + 4]);
    }

    /** What lies at the position of item `j` of chunk `k`: the item, or the zero behind the last. */
    lemma ItemLayout(k: nat, j: nat)
      requires |data| >= 4 && KnownSdes(data)
      requires k < |Chunks()| && j <= |Chunks()[k].items|
      ensures
        var items := Chunks()[k].items;
        var p := StartOf(4, Chunks(), k) + 4 + ItemOffset(items, j);
        && p < |data| && (data[p] == 0 <==> j == |items|)
        && (j < |items| ==>
              && p + 2 <= |data| && p + 2 + data[p + 1] <= |data|
              && items[j] == Item(data[p], data[p + 2..p + 2 + data[p + 1]])
              && ItemOffset(items, j + 1) == ItemOffset(items, j) + 2 + data[p + 1])
    {
      hide U32, ReadChunks, StartOf, ChunkSize, ReadItems, ItemOffset, Align;
      ChunkLayout(k);
      ItemAt(data, Unpadded(data).value, StartOf(4, Chunks(), k) + 4, j);
    }

    method GotoFirstChunk() returns (found: bool)
      requires Valid()
      modifies this
      ensures Valid() && (found <==> knownFormat && Chunks() != [])
      ensures found ==> currentChunk != 0 && chunkIndex == 0 && itemIndex == 0
      ensures !found ==> currentChunk == 0
    {
      if GetChunkCount() == 0 {
        currentChunk := 0;
        return false;
      }
      currentChunk, curChunkNum, itemOffset := 4, 1, 4;
      chunkIndex, itemIndex := 0, 0;
      found := true;
    }

    method GotoNextChunk() returns (found: bool)
      requires Valid()
      modifies this
      ensures Valid() && (found <==> old(currentChunk) != 0 && old(chunkIndex) + 1 < |Chunks()|)
      ensures found ==> currentChunk != 0 && chunkIndex == old(chunkIndex) + 1 && itemIndex == 0
      ensures !found ==>
        currentChunk == old(currentChunk) && chunkIndex == old(chunkIndex) && itemIndex == old(itemIndex)
    {
      hide Align, ReadSdes, ReadChunks, StartOf, ReadItems, U32;
      if !knownFormat || currentChunk == 0 || curChunkNum == GetChunkCount() {
        return false;
      }
      var offset := SkipItems();
      offset := offset + 1;
      AlignUp(offset);
      if offset % 4 != 0 {
        offset := offset + (4 - offset % 4);
      }
      ChunkLayout(chunkIndex);
      currentChunk := currentChunk + offset;
      curChunkNum := curChunkNum + 1;
      itemOffset := 4;
      chunkIndex, itemIndex := chunkIndex + 1, 0;
      found := true;
    }

    /** Offset, in the current chunk, of the zero behind its items. */
    method SkipItems() returns (offset: nat)
      requires Valid() && currentChunk != 0
      ensures offset == 4 + ItemOffset(Chunks()[chunkIndex].items, |Chunks()[chunkIndex].items|)
    {
      hide ReadSdes, StartOf, KnownSdes, Chunks, Align;
      offset := 4;
      ghost var k, i := chunkIndex, 0;
      ghost var items := Chunks()[k].items;
      ItemLayout(k, 0);
      while data[currentChunk + offset] != 0
        invariant i <= |items| && offset == 4 + ItemOffset(items, i) && currentChunk + offset < |data|
        invariant i < |items| <==> data[currentChunk + offset] != 0
        decreases |items| - i
      {
        ItemLayout(k, i);
        ItemLayout(k, i + 1);
        offset := offset + 2 + data[currentChunk + offset + 1];
        i := i + 1;
      }
    }

    method GotoFirstItem() returns (found: bool)
      requires Valid()
      modifies this`itemOffset, this`itemIndex
      ensures Valid() && (found <==> currentChunk != 0 && Chunks()[chunkIndex].items != [])
      ensures currentChunk != 0 ==> itemIndex == 0
    {
      hide ReadSdes, StartOf, KnownSdes, Chunks;
      if !knownFormat || currentChunk == 0 {
        return false;
      }
      itemOffset := 4;
      itemIndex := 0;
      ItemLayout(chunkIndex, 0);
      found := data[currentChunk + itemOffset] != 0;
    }

    method GotoNextItem() returns (found: bool)
      requires Valid()
      modifies this`itemOffset, this`itemIndex
      ensures Valid() && (found <==> currentChunk != 0 && old(itemIndex) + 1 < |Chunks()[chunkIndex].items|)
      ensures itemIndex == old(itemIndex) + if found then 1 else 0
    {
      hide ReadSdes, StartOf, ItemOffset, KnownSdes, Chunks;
      if !knownFormat || currentChunk == 0 {
        return false;
      }
      ItemLayout(chunkIndex, itemIndex);
      if data[currentChunk + itemOffset] == 0 {
        return false;
      }
      ItemLayout(chunkIndex, itemIndex + 1);
      var offset := itemOffset + 2 + data[currentChunk + itemOffset + 1];
      if data[currentChunk + offset] == 0 {
        return false;
      }
      itemOffset := offset;
      itemIndex := itemIndex + 1;
      found := true;
    }

    method GetChunkSSRC() returns (ssrc: uint32)
      requires Valid()
      ensures ssrc == if currentChunk != 0 then Chunks()[chunkIndex].ssrc else 0
    {
      if !knownFormat || currentChunk == 0 {
        return 0;
      }
      ChunkLayout(chunkIndex);
      ssrc := U32(data, currentChunk);
    }

    /** `GetItemType`, `GetItemLength` and `GetItemData` at once. */
    method GetItem() returns (item: Option<Item>)
      requires Valid()
      ensures item ==
        if currentChunk != 0 && itemIndex < |Chunks()[chunkIndex].items| then
          Some(Chunks()[chunkIndex].items[itemIndex])
        else None
    {
      hide ReadSdes, StartOf, ItemOffset, KnownSdes, Chunks;
      if !knownFormat || currentChunk == 0 {
        return None;
      }
      ItemLayout(chunkIndex, itemIndex);
      var at := currentChunk + itemOffset;
      if data[at] == 0 {
        return None;
      }
      item := Some(Item(data[at], data[at + 2..at + 2 + data[at + 1]]));
    }

    /** The nested loops with which a receiver walks the packet: they visit every chunk and every
        item once, in order. */
    method Collect() returns (cs: seq<Chunk>)
      requires Valid()
      modifies this
      ensures Valid() && (if knownFormat then cs == Chunks() && |cs| == Count(data) else cs == [])
    {
      cs := [];
      if knownFormat {
        ReadChunksLayout(data[..Unpadded(data).value], 4, Count(data));
      }
      var more := GotoFirstChunk();
      if !more {
        return;
      }
      while more
        invariant Valid() && knownFormat
        invariant more ==> currentChunk != 0 && chunkIndex < |Chunks()| && cs == Chunks()[..chunkIndex]
        invariant !more ==> cs == Chunks()
        decreases if more then |Chunks()| - chunkIndex else 0
      {
        var ssrc := GetChunkSSRC();
        var items := CollectItems();
        cs := cs + [Chunk(ssrc, items)];
        assert cs == Chunks()[..chunkIndex + 1];
        more := GotoNextChunk();
      }
    }

    method CollectItems() returns (items: seq<Item>)
      requires Valid() && currentChunk != 0
      modifies this`itemOffset, this`itemIndex
      ensures Valid() && items == Chunks()[chunkIndex].items
    {
      items := [];
      var more := GotoFirstItem();
      ghost var all := Chunks()[chunkIndex].items;
      while more
        invariant Valid()
        invariant more ==> itemIndex < |all| && items == all[..itemIndex]
        invariant !more ==> items == all
        decreases if more then |all| - itemIndex else 0
      {
        var item := GetItem();
        items := items + [item.value];
        assert items == all[..itemIndex + 1];
        more := GotoNextItem();
      }
    }
  }

  /** What lies where item `j` of a readable list should start: the item, or the final zero. */
  lemma ItemAt(data: seq<byte>, end: nat, off: nat, j: nat)
    requires end <= |data| && ReadItems(data[..end], off).Items? && j <= |ReadItems(data[..end], off).items|
    ensures
      var items := ReadItems(data[..end], off).items;
      var p := off + ItemOffset(items, j);
      && p < |data| && (data[p] == 0 <==> j == |items|)
      && (j < |items| ==>
            && p + 2 <= |data| && p + 2 + data[p + 1] <= |data|
            && items[j] == Item(data[p], data[p + 2..p + 2 + data[p + 1]])
            && ItemOffset(items, j + 1) == ItemOffset(items, j) + 2 + data[p + 1])
  {
    hide Align;
    var s := data[..end];
    var items := ReadItems(s, off).items;
    ReadItemsFrom(s, off, j);
    var p := off + ItemOffset(items, j);
    assert s[p] == data[p];
    if j < |items| {
      assert items[j..][0] == items[j];
      ItemOffsetStep(items, j);
      SubSlice(data, 0, end, p + 2, p + 2 + s[p + 1]);
      assert data[0..end] == s;
    }
  }
}
