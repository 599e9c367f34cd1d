/** RTCP source description packets (section 6.5 of RFC 3550): the wire format, the validating
    constructor of `RTCPSDESPacket` and its chunk and item iterators. */
module SdesPacket {
  import opened Bytes

  const PRIVATE: byte := 8

  datatype Item = Item(id: byte, data: seq<byte>)
  datatype Chunk = Chunk(ssrc: uint32, items: seq<Item>)

  predicate ItemOk(i: Item) {
    i.id != 0 && |i.data| <= 255
  }

  predicate ChunkOk(c: Chunk) {
    forall i | i in c.items :: ItemOk(i)
  }

  predicate ChunksOk(cs: seq<Chunk>) {
    forall c | c in cs :: ChunkOk(c)
  }

  // ---------------------------------------------------------------- the wire format

  function ItemBytes(i: Item): seq<byte>
    requires ItemOk(i)
  {
    [i.id, |i.data|] + i.data
  }

  /** Where item `j` of a list starts. */
  function ItemOffset(items: seq<Item>, j: nat): nat
    requires j <= |items|
  {
    if j == 0 then 0 else 2 + |items[0].data| + ItemOffset(items[1..], j - 1)
  }

  function ItemsBytes(items: seq<Item>): (s: seq<byte>)
    requires forall i | i in items :: ItemOk(i)
    ensures |s| == ItemOffset(items, |items|)
  {
    if items == [] then [] else ItemBytes(items[0]) + ItemsBytes(items[1..])
  }

  function Zeros(n: nat): (s: seq<byte>)
    ensures |s| == n
  {
    seq(n, _ => 0)
  }

  /** The next multiple of four. */
  function Align(n: nat): (m: nat)
    ensures n <= m < n + 4 && m % 4 == 0
  {
    (n + 3) / 4 * 4
  }

  /** How the library rounds up: by what is missing to a multiple of four. */
  lemma AlignUp(n: nat)
    ensures Align(n) == if n % 4 == 0 then n else n + (4 - n % 4)
  {
  }

  lemma AlignShift(off: nat, n: nat)
    requires off % 4 == 0
    ensures Align(off + n) == off + Align(n)
  {
  }

  function ChunkSize(c: Chunk): nat {
    Align(4 + ItemOffset(c.items, |c.items|) + 1)
  }

  function ChunkBytes(c: Chunk): (s: seq<byte>)
    requires ChunkOk(c)
    ensures |s| == ChunkSize(c)
  {
    var w := ItemsBytes(c.items);
    BE32(c.ssrc) + w + [0] + Zeros(Align(4 + |w| + 1) - (4 + |w| + 1))
  }

  function ChunksBytes(cs: seq<Chunk>): seq<byte>
    requires ChunksOk(cs)
  {
    if cs == [] then [] else ChunkBytes(cs[0]) + ChunksBytes(cs[1..])
  }

  // ---------------------------------------------------------------- reading it back

  /** The items from offset `off`, and the 32-bit boundary behind the zero that ends them. */
  datatype Items = NoItems | Items(items: seq<Item>, end: nat)

  function ReadItems(s: seq<byte>, off: nat): Items
    decreases |s| - off
  {
    if off >= |s| then NoItems
    else if s[off] == 0 then
      if Align(off + 1) <= |s| then Items([], Align(off + 1)) else NoItems
    else if off + 2 > |s| || off + 2 + s[off + 1] > |s| then NoItems
    else
      var next := off + 2 + s[off + 1];
      var r := ReadItems(s, next);
      if r.NoItems? then NoItems else Items([Item(s[off], s[off + 2..next])] + r.items, r.end)
  }

  /** Exactly `n` chunks that fill `s` from offset `off` on. */
  function ReadChunks(s: seq<byte>, off: nat, n: nat): Option<seq<Chunk>>
    decreases n
  {
    if n == 0 then if off == |s| then Some([]) else None
    else if off + 8 > |s| then None
    else
      var r := ReadItems(s, off + 4);
      if r.NoItems? then None
      else
        var rest := ReadChunks(s, r.end, n - 1);
        if rest.None? then None else Some([Chunk(U32(s, off), r.items)] + rest.value)
  }

  // ---------------------------------------------------------------- laws

  /** Items written at `off`, with a zero behind them, are read back. */
  lemma {:induction false} ReadItemsBytes(s: seq<byte>, off: nat, items: seq<Item>)
    requires forall i | i in items :: ItemOk(i)
    requires off + |ItemsBytes(items)| + 1 <= |s|
    requires s[off..off + |ItemsBytes(items)|] == ItemsBytes(items) && s[off + |ItemsBytes(items)|] == 0
    requires Align(off + |ItemsBytes(items)| + 1) <= |s|
    ensures ReadItems(s, off) == Items(items, Align(off + |ItemsBytes(items)| + 1))
    decreases |items|
  {
    hide Align, ItemOffset, ReadItems;
    ReadItemsStep(s, off);
    if items == [] {
      assert off + |ItemsBytes(items)| == off;
    } else {
      var w, n := ItemsBytes(items), 2 + |items[0].data|;
      SubSlice(s, off, off + |w|, 0, n);
      SubSlice(s, off, off + |w|, n, |w|);
      assert w[..n] == ItemBytes(items[0]) && w[n..] == ItemsBytes(items[1..]);
      FirstItem(s, off, items[0]);
      ReadItemsBytes(s, off + n, items[1..]);
    }
  }

  lemma FirstItem(s: seq<byte>, off: nat, i: Item)
    requires ItemOk(i) && off + 2 + |i.data| <= |s| && s[off..off + 2 + |i.data|] == ItemBytes(i)
    ensures s[off] == i.id && s[off + 1] == |i.data| && s[off + 2..off + 2 + |i.data|] == i.data
  {
    var b := s[off..off + 2 + |i.data|];
    assert s[off] == b[0] && s[off + 1] == b[1];
    SubSlice(s, off, off + 2 + |i.data|, 2, 2 + |i.data|);
  }

  lemma ReadChunkBytes(s: seq<byte>, off: nat, c: Chunk)
    requires ChunkOk(c) && off % 4 == 0
    requires off + ChunkSize(c) <= |s| && s[off..off + ChunkSize(c)] == ChunkBytes(c)
    ensures U32(s, off) == c.ssrc && ReadItems(s, off + 4) == Items(c.items, off + ChunkSize(c))
  {
    hide BE32, U32, Align, ItemsBytes, Zeros, ItemOffset, ReadItems, ItemOk;
    var w, size := ItemsBytes(c.items), ChunkSize(c);
    FourParts(BE32(c.ssrc), w, [0], Zeros(size - (4 + |w| + 1)));
    SubSlice(s, off, off + size, 0, 4);
    SubSlice(s, off, off + size, 4, 4 + |w|);
    SubSlice(s, off, off + size, 4 + |w|, 4 + |w| + 1);
    assert s[off + 4 + |w|] == s[off + 4 + |w|..off + 4 + |w| + 1][0];
    RoundTrip32(c.ssrc);
    ReadSlice(s, off, BE32(c.ssrc));
    AlignShift(off, 4 + |w| + 1);
    ReadItemsBytes(s, off + 4, c.items);
  }

  /** Chunks written behind a 32-bit boundary are read back. */
  lemma {:induction false} ReadChunksBytes(s: seq<byte>, off: nat, cs: seq<Chunk>)
    requires ChunksOk(cs) && off % 4 == 0 && off <= |s| && s[off..] == ChunksBytes(cs)
    ensures ReadChunks(s, off, |cs|) == Some(cs)
    decreases |cs|
  {
    hide ChunkBytes, Align, ItemsBytes, ReadItems, U32;
    if cs == [] {
      assert s[off..] == [];
    } else {
      var n := ChunkSize(cs[0]);
      SubSlice(s, off, |s|, 0, n);
      SubSlice(s, off, |s|, n, |s| - off);
      assert s[off..][..n] == ChunkBytes(cs[0]) && s[off..][n..] == ChunksBytes(cs[1..]);
      ReadChunkBytes(s, off, cs[0]);
      assert (off + n) % 4 == 0;
      ReadChunksBytes(s, off + n, cs[1..]);
      assert [Chunk(cs[0].ssrc, cs[0].items)] + cs[1..] == cs;
    }
  }

  /** What is read is well formed and stands in the buffer: item `j` at its own offset. */
  lemma {:induction false} ReadItemsLayout(s: seq<byte>, off: nat)
    requires ReadItems(s, off).Items?
    ensures
      var r := ReadItems(s, off);
      && (forall i | i in r.items :: ItemOk(i))
      && off + |ItemsBytes(r.items)| < |s| && s[off..off + |ItemsBytes(r.items)|] == ItemsBytes(r.items)
      && s[off + |ItemsBytes(r.items)|] == 0
      && r.end == Align(off + |ItemsBytes(r.items)| + 1) <= |s|
    decreases |s| - off
  {
    hide Align, ItemOffset, ReadItems, ItemsBytes, ItemOk;
    ReadItemsStep(s, off);
    NoItemsBytes();
    if s[off] != 0 {
      var next := off + 2 + s[off + 1];
      ReadItemsLayout(s, next);
      ItemBefore(s, off, ReadItems(s, off).items, ReadItems(s, next).items);
    } else {
      assert s[off..off] == [];
    }
  }

  lemma NoItemsBytes()
    ensures ItemsBytes([]) == []
  {
  }

  /** An item in front of others that lie where they should. */
  lemma ItemBefore(s: seq<byte>, off: nat, items: seq<Item>, rest: seq<Item>)
    requires off + 2 <= |s| && off + 2 + s[off + 1] <= |s| && s[off] != 0
    requires items == [Item(s[off], s[off + 2..off + 2 + s[off + 1]])] + rest && forall i | i in rest :: ItemOk(i)
    requires
      var next := off + 2 + s[off + 1];
      next + |ItemsBytes(rest)| <= |s| && s[next..next + |ItemsBytes(rest)|] == ItemsBytes(rest)
    ensures forall i | i in items :: ItemOk(i)
    ensures |ItemsBytes(items)| == 2 + s[off + 1] + |ItemsBytes(rest)|
    ensures s[off..off + |ItemsBytes(items)|] == ItemsBytes(items)
  {
    hide ItemOffset;
    var next := off + 2 + s[off + 1];
    assert items[1..] == rest;
    assert ItemBytes(items[0]) == s[off..next];
    assert s[off..next] + s[next..next + |ItemsBytes(rest)|] == s[off..next + |ItemsBytes(rest)|];
  }

  /** Reading from item `j` on finds the items from `j` on. */
  lemma {:induction false} ReadItemsFrom(s: seq<byte>, off: nat, j: nat)
    requires ReadItems(s, off).Items? && j <= |ReadItems(s, off).items|
    ensures
      var r := ReadItems(s, off);
      ReadItems(s, off + ItemOffset(r.items, j)) == Items(r.items[j..], r.end)
    decreases j
  {
    if j > 0 {
      var next := off + 2 + s[off + 1];
      ReadItemsFrom(s, next, j - 1);
      var r := ReadItems(s, off);
      assert r.items[1..] == ReadItems(s, next).items;
      assert r.items[1..][j - 1..] == r.items[j..];
    }
  }

  /** One step of reading, without the items. */
  lemma ReadItemsStep(s: seq<byte>, off: nat)
    ensures off >= |s| ==> ReadItems(s, off).NoItems?
    ensures off < |s| && s[off] == 0 ==>
      ReadItems(s, off) == if Align(off + 1) <= |s| then Items([], Align(off + 1)) else NoItems
    ensures off < |s| && s[off] != 0 ==>
      if off + 2 > |s| || off + 2 + s[off + 1] > |s| then ReadItems(s, off).NoItems?
      else
        var r, rest := ReadItems(s, off), ReadItems(s, off + 2 + s[off + 1]);
        && (r.Items? <==> rest.Items?)
        && (r.Items? ==> r.end == rest.end && r.items == [Item(s[off], s[off + 2..off + 2 + s[off + 1]])] + rest.items)
  {
  }

  lemma {:induction false} ItemOffsetStep(items: seq<Item>, j: nat)
    requires j < |items|
    ensures ItemOffset(items, j + 1) == ItemOffset(items, j) + 2 + |items[j].data|
    decreases j
  {
    if j > 0 {
      ItemOffsetStep(items[1..], j - 1);
    }
  }

  /** A successful read finds `n` well formed chunks that fill the buffer exactly. */
  lemma {:induction false} ReadChunksLayout(s: seq<byte>, off: nat, n: nat)
    requires off % 4 == 0 && ReadChunks(s, off, n).Some?
    ensures
      var cs := ReadChunks(s, off, n).value;
      |cs| == n && ChunksOk(cs) && off + |ChunksBytes(cs)| == |s|
    decreases n
  {
    hide Align, ItemsBytes, ChunkBytes, ReadItems, U32, ItemOffset;
    if n > 0 {
      ReadItemsLayout(s, off + 4);
      AlignShift(off, 4 + |ItemsBytes(ReadItems(s, off + 4).items)| + 1);
      ReadChunksLayout(s, ReadItems(s, off + 4).end, n - 1);
      var cs := ReadChunks(s, off, n).value;
      assert cs[1..] == ReadChunks(s, ReadItems(s, off + 4).end, n - 1).value;
    }
  }

  /** Where chunk `k` starts when the first one starts at `off`. */
  function StartOf(off: nat, cs: seq<Chunk>, k: nat): nat
    requires k <= |cs|
    decreases k
  {
    if k == 0 then off else StartOf(off + ChunkSize(cs[0]), cs[1..], k - 1)
  }

  lemma {:induction false} StartOfStep(off: nat, cs: seq<Chunk>, k: nat)
    requires k < |cs|
    ensures StartOf(off, cs, k + 1) == StartOf(off, cs, k) + ChunkSize(cs[k]) && StartOf(off, cs, k) >= off
    decreases k
  {
    if k > 0 {
      StartOfStep(off + ChunkSize(cs[0]), cs[1..], k - 1);
    }
  }

  /** Reading from the start of chunk `k` finds the chunks from `k` on; behind the last one the
      buffer ends. */
  lemma {:induction false} ReadChunksFrom(s: seq<byte>, off: nat, n: nat, k: nat)
    requires off % 4 == 0 && ReadChunks(s, off, n).Some? && k <= n
    ensures
      var cs := ReadChunks(s, off, n).value;
      && |cs| == n && ChunksOk(cs) && StartOf(off, cs, k) % 4 == 0
      && ReadChunks(s, StartOf(off, cs, k), n - k) == Some(cs[k..])
      && (k == n ==> StartOf(off, cs, k) == |s|)
    decreases k
  {
    hide Align, ItemsBytes, ReadItems, U32;
    ReadChunksLayout(s, off, n);
    if k > 0 {
      ReadItemsLayout(s, off + 4);
      AlignShift(off, 4 + |ItemsBytes(ReadItems(s, off + 4).items)| + 1);
      ReadChunksFrom(s, ReadItems(s, off + 4).end, n - 1, k - 1);
    }
  }
}
