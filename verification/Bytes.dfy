/** Machine words and network byte order.

    Words are subset types of `int`; wherever the library lets a word wrap, the model writes the
    `%` out. */
module Bytes {
  type byte = x: int | 0 <= x < 0x100
  type uint16 = x: int | 0 <= x < 0x1_0000
  type uint32 = x: int | 0 <= x < 0x1_0000_0000

  datatype Option<+T> = None | Some(value: T)

  function Min(a: int, b: int): int {
    if a < b then a else b
  }

  /** htons, then the two bytes as they lie in memory. */
  function BE16(x: uint16): (s: seq<byte>)
    ensures |s| == 2
  {
    [x / 0x100, x % 0x100]
  }

  /** htonl, then the four bytes as they lie in memory. */
  function BE32(x: uint32): (s: seq<byte>)
    ensures |s| == 4
  {
    [x / 0x100_0000, x / 0x1_0000 % 0x100, x / 0x100 % 0x100, x % 0x100]
  }

  /** ntohs of the two bytes at offset `i`. */
  function U16(s: seq<byte>, i: nat): uint16
    requires i + 2 <= |s|
  {
    s[i] as int * 0x100 + s[i + 1]
  }

  /** ntohl of the four bytes at offset `i`. */
  function U32(s: seq<byte>, i: nat): uint32
    requires i + 4 <= |s|
  {
    s[i] as int * 0x100_0000 + s[i + 1] as int * 0x1_0000 + s[i + 2] as int * 0x100 + s[i + 3]
  }

  lemma RoundTrip16(x: uint16)
    ensures U16(BE16(x), 0) == x
  {
  }

  lemma RoundTrip32(x: uint32)
    ensures U32(BE32(x), 0) == x
  {
    assert x / 0x1_0000 == x / 0x100_0000 * 0x100 + x / 0x1_0000 % 0x100;
    assert x / 0x100 == x / 0x1_0000 * 0x100 + x / 0x100 % 0x100;
  }

  lemma WriteRead16(s: seq<byte>, i: nat)
    requires i + 2 <= |s|
    ensures BE16(U16(s, i)) == s[i..i + 2]
  {
  }

  lemma WriteRead32(s: seq<byte>, i: nat)
    requires i + 4 <= |s|
    ensures BE32(U32(s, i)) == s[i..i + 4]
  {
    var x := U32(s, i);
    assert x / 0x100_0000 == s[i];
    assert x / 0x1_0000 == s[i] as int * 0x100 + s[i + 1];
    assert x / 0x100 == s[i] as int * 0x1_0000 + s[i + 1] as int * 0x100 + s[i + 2];
  }

  /** Reading a word inside a larger buffer is reading it in the slice that holds it. */
  lemma ReadSlice(s: seq<byte>, i: nat, t: seq<byte>)
    requires i + |t| <= |s| && s[i..i + |t|] == t
    ensures |t| >= 2 ==> U16(s, i) == U16(t, 0)
    ensures |t| >= 4 ==> U32(s, i) == U32(t, 0)
  {
    assert forall k | 0 <= k < |t| :: s[i + k] == t[k];
  }

  /** All the strings of a list, one after the other. */
  function Concat<T>(parts: seq<seq<T>>): seq<T> {
    if parts == [] then [] else parts[0] + Concat(parts[1..])
  }

  lemma {:induction false} ConcatAppend<T>(a: seq<seq<T>>, b: seq<seq<T>>)
    ensures Concat(a + b) == Concat(a) + Concat(b)
  {
    if a == [] {
      assert a + b == b;
    } else {
      assert (a + b)[1..] == a[1..] + b;
      ConcatAppend(a[1..], b);
    }
  }

  lemma ConcatOne<T>(p: seq<T>)
    ensures Concat([p]) == p
  {
    assert [p][1..] == [];
  }

  lemma Assoc<T>(a: seq<T>, b: seq<T>, c: seq<T>)
    ensures a + b + c == a + (b + c)
  {
  }

  lemma FourParts<T>(a: seq<T>, b: seq<T>, c: seq<T>, d: seq<T>)
    ensures
      var s := a + b + c + d;
      && s[..|a|] == a && s[|a|..|a| + |b|] == b
      && s[|a| + |b|..|a| + |b| + |c|] == c && s[|a| + |b| + |c|..] == d
  {
  }

  /** A slice of a slice. */
  lemma SubSlice<T>(s: seq<T>, a: nat, b: nat, c: nat, d: nat)
    requires a <= b <= |s| && c <= d <= b - a
    ensures s[a..b][c..d] == s[a + c..a + d]
  {
    forall k | 0 <= k < d - c
      ensures s[a..b][c..d][k] == s[a + c..a + d][k]
    {
      assert s[a..b][c + k] == s[a + c + k];
    }
  }

  /** A list of words in network byte order. */
  function Words(xs: seq<uint32>): (s: seq<byte>)
    ensures |s| == 4 * |xs|
  {
    if xs == [] then [] else BE32(xs[0]) + Words(xs[1..])
  }

  function ReadWords(s: seq<byte>, off: nat, n: nat): (xs: seq<uint32>)
    requires off + 4 * n <= |s|
    ensures |xs| == n
    decreases n
  {
    if n == 0 then [] else [U32(s, off)] + ReadWords(s, off + 4, n - 1)
  }

  lemma {:induction false} WordsRoundTrip(s: seq<byte>, off: nat, xs: seq<uint32>)
    requires off + 4 * |xs| <= |s| && s[off..off + 4 * |xs|] == Words(xs)
    ensures ReadWords(s, off, |xs|) == xs
    decreases |xs|
  {
    hide BE32, U32;
    if xs != [] {
      SubSlice(s, off, off + 4 * |xs|, 0, 4);
      SubSlice(s, off, off + 4 * |xs|, 4, 4 * |xs|);
      assert s[off..off + 4 * |xs|][..4] == BE32(xs[0]);
      assert s[off..off + 4 * |xs|][4..] == Words(xs[1..]);
      ReadSlice(s, off, BE32(xs[0]));
      RoundTrip32(xs[0]);
      WordsRoundTrip(s, off + 4, xs[1..]);
    }
  }

  lemma {:induction false} WordsReadWords(s: seq<byte>, off: nat, n: nat)
    requires off + 4 * n <= |s|
    ensures Words(ReadWords(s, off, n)) == s[off..off + 4 * n]
    decreases n
  {
    if n > 0 {
      WordsReadWords(s, off + 4, n - 1);
      WriteRead32(s, off);
      var xs := ReadWords(s, off, n);
      assert xs[1..] == ReadWords(s, off + 4, n - 1);
    }
  }

  lemma {:induction false} ReadWordsAt(s: seq<byte>, off: nat, n: nat, i: nat)
    requires off + 4 * n <= |s| && i < n
    ensures ReadWords(s, off, n)[i] == U32(s, off + 4 * i)
    decreases n
  {
    if i > 0 {
      ReadWordsAt(s, off + 4, n - 1, i - 1);
    }
  }

  lemma {:induction false} WordsAppend(xs: seq<uint32>, x: uint32)
    ensures Words(xs + [x]) == Words(xs) + BE32(x)
  {
    if xs != [] {
      assert (xs + [x])[1..] == xs[1..] + [x];
      WordsAppend(xs[1..], x);
    }
  }

  /** `memcpy` into a buffer: the bytes at `offset` become `data`, the rest stays. */
  method Store(buf: array<byte>, offset: nat, data: seq<byte>)
    requires offset + |data| <= buf.Length
    modifies buf
    ensures buf[..] == old(buf[..offset]) + data + old(buf[offset + |data|..])
  {
    forall k | 0 <= k < |data| {
      buf[offset + k] := data[k];
    }
  }

  /** Writes `data` behind the first `offset` bytes; what lies behind it stays. */
  method Put(buf: array<byte>, offset: nat, data: seq<byte>) returns (next: nat)
    requires offset + |data| <= buf.Length
    modifies buf
    ensures next == offset + |data|
    ensures buf[..next] == old(buf[..offset]) + data
    ensures forall k | next <= k < buf.Length :: buf[k] == old(buf[k])
  {
    Store(buf, offset, data);
    next := offset + |data|;
  }

  /** Writes a list of words behind the first `offset` bytes. */
  method PutWords(buf: array<byte>, offset: nat, xs: seq<uint32>) returns (next: nat)
    requires offset + 4 * |xs| <= buf.Length
    modifies buf
    ensures next == offset + 4 * |xs|
    ensures buf[..next] == old(buf[..offset]) + Words(xs)
    ensures forall k | next <= k < buf.Length :: buf[k] == old(buf[k])
  {
    next := offset;
    assert xs[..0] == [] && old(buf[..offset]) + [] == buf[..offset];
    for i := 0 to |xs|
      invariant next == offset + 4 * i
      invariant buf[..next] == old(buf[..offset]) + Words(xs[..i])
      invariant forall k | next <= k < buf.Length :: buf[k] == old(buf[k])
    {
      next := Put(buf, next, BE32(xs[i]));
      WordsAppend(xs[..i], xs[i]);
      assert xs[..i + 1] == xs[..i] + [xs[i]];
      Assoc(old(buf[..offset]), Words(xs[..i]), BE32(xs[i]));
    }
    assert xs[..|xs|] == xs;
  }
}
