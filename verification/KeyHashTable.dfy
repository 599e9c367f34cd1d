/** `RTPKeyHashTable` of rtpkeyhashtable.h: every element sits in the chain of its hash bucket and,
    at the same time, in one list that keeps the order of insertion. */
module KeyHashTable {

  datatype Error = NoCurrentElement | InvalidHashIndex | KeyNotFound | KeyAlreadyExists
  datatype Status = Success | Failure(error: Error)

  class HashElement<Key, Element> {
    const hashIndex: int
    const key: Key
    const element: Element
    var hashPrev: HashElement?<Key, Element>
    var hashNext: HashElement?<Key, Element>
    var listPrev: HashElement?<Key, Element>
    var listNext: HashElement?<Key, Element>
    /** Where the node stands in its chain and in the list. */
    ghost var hashPos: nat
    ghost var listPos: nat

    constructor (k: Key, e: Element, index: int)
      ensures key == k && element == e && hashIndex == index
      ensures hashPrev == null && hashNext == null && listPrev == null && listNext == null
    {
      key, element, hashIndex := k, e, index;
      hashPrev, hashNext, listPrev, listNext := null, null, null, null;
    }
  }

  /** The node at position `i`, null off either end. */
  function At<K, E>(s: seq<HashElement<K, E>>, i: int): HashElement?<K, E> {
    if 0 <= i < |s| then s[i] else null
  }

  ghost predicate ListAt<K, E>(s: seq<HashElement<K, E>>, i: nat)
    requires i < |s|
    reads s`listPrev, s`listNext
  {
    s[i].listPrev == At(s, i - 1) && s[i].listNext == At(s, i + 1)
  }

  /** The nodes of the list, in order. */
  ghost predicate ListLinked<K, E>(s: seq<HashElement<K, E>>)
    reads s`listPrev, s`listNext, s`listPos
  {
    && (forall i | 0 <= i < |s| :: s[i].listPos == i)
    && (forall i | 0 <= i < |s| :: ListAt(s, i))
  }

  ghost predicate ChainAt<K, E>(s: seq<HashElement<K, E>>, i: nat)
    requires i < |s|
    reads s`hashPrev, s`hashNext
  {
    s[i].hashPrev == At(s, i - 1) && s[i].hashNext == At(s, i + 1)
  }

  /** The nodes of bucket `b`, in order. */
  ghost predicate ChainLinked<K, E>(b: int, s: seq<HashElement<K, E>>)
    reads s`hashPrev, s`hashNext, s`hashPos
  {
    && (forall i | 0 <= i < |s| :: s[i].hashIndex == b && s[i].hashPos == i)
    && (forall i | 0 <= i < |s| :: ChainAt(s, i))
  }

  function Without<T>(s: seq<T>, i: nat): seq<T>
    requires i < |s|
  {
    s[..i] + s[i + 1..]
  }

  /** The neighbours once position `i` is cut out. */
  lemma AtWithout<K, E>(s: seq<HashElement<K, E>>, i: nat, j: nat)
    requires i < |s| && j < |s| - 1
    ensures
      var t, k := Without(s, i), if j < i then j else j + 1;
      && |t| == |s| - 1 && t[j] == s[k]
      && At(t, j - 1) == (if k == i + 1 then At(s, i - 1) else At(s, k - 1))
      && At(t, j + 1) == (if k == i - 1 then At(s, i + 1) else At(s, k + 1))
  {
  }

  /** Node `k` as it must be linked once node `i` is cut out. */
  ghost predicate ListCutAt<K, E>(s: seq<HashElement<K, E>>, i: nat, k: nat)
    requires i < |s| && k < |s|
    reads s`listPrev, s`listNext
  {
    && s[k].listPrev == (if k == i + 1 then At(s, i - 1) else At(s, k - 1))
    && s[k].listNext == (if k == i - 1 then At(s, i + 1) else At(s, k + 1))
  }

  ghost predicate ChainCutAt<K, E>(s: seq<HashElement<K, E>>, i: nat, k: nat)
    requires i < |s| && k < |s|
    reads s`hashPrev, s`hashNext
  {
    && s[k].hashPrev == (if k == i + 1 then At(s, i - 1) else At(s, k - 1))
    && s[k].hashNext == (if k == i - 1 then At(s, i + 1) else At(s, k + 1))
  }

  lemma ListWithout<K, E>(s: seq<HashElement<K, E>>, i: nat)
    requires i < |s|
    requires forall k | 0 <= k < |s| :: k != i ==> ListCutAt(s, i, k)
    requires forall k | 0 <= k < |s| :: s[k].listPos == if k > i then k - 1 else k
    ensures ListLinked(Without(s, i))
  {
    forall j | 0 <= j < |s| - 1
      ensures ListAt(Without(s, i), j)
    {
      assert ListCutAt(s, i, if j < i then j else j + 1);
      AtWithout(s, i, j);
    }
  }

  lemma ChainWithout<K, E>(b: int, s: seq<HashElement<K, E>>, i: nat)
    requires i < |s|
    requires forall k | 0 <= k < |s| :: k != i ==> ChainCutAt(s, i, k)
    requires forall k | 0 <= k < |s| :: s[k].hashIndex == b && s[k].hashPos == if k > i then k - 1 else k
    ensures ChainLinked(b, Without(s, i))
  {
    forall j | 0 <= j < |s| - 1
      ensures ChainAt(Without(s, i), j)
    {
      assert ChainCutAt(s, i, if j < i then j else j + 1);
      AtWithout(s, i, j);
    }
  }

  /** The positions after `from` move down by one. */
  ghost method CloseListGap<K, E>(s: seq<HashElement<K, E>>, from: nat)
    requires forall i | 0 <= i < |s| :: s[i].listPos == i
    modifies s`listPos
    ensures forall i | 0 <= i < |s| :: s[i].listPos == if i > from then i - 1 else i
  {
    forall i | from < i < |s| {
      s[i].listPos := i - 1;
    }
  }

  ghost method CloseChainGap<K, E>(s: seq<HashElement<K, E>>, from: nat)
    requires forall i | 0 <= i < |s| :: s[i].hashPos == i
    modifies s`hashPos
    ensures forall i | 0 <= i < |s| :: s[i].hashPos == if i > from then i - 1 else i
  {
    forall i | from < i < |s| {
      s[i].hashPos := i - 1;
    }
  }

  function Pairs<K, E>(s: seq<HashElement<K, E>>): seq<(K, E)> {
    seq(|s|, i requires 0 <= i < |s| => (s[i].key, s[i].element))
  }

  ghost function NodesOf<K, E>(s: seq<HashElement<K, E>>): set<HashElement<K, E>> {
    set n | n in s
  }

  lemma NodesWithout<K, E>(s: seq<HashElement<K, E>>, i: nat)
    requires i < |s| && KeysDistinct(s)
    ensures NodesOf(Without(s, i)) == NodesOf(s) - {s[i]}
  {
    forall n | n in NodesOf(s) && n != s[i]
      ensures n in Without(s, i)
    {
      var k :| 0 <= k < |s| && s[k] == n;
      assert Without(s, i)[if k < i then k else k - 1] == n;
    }
  }

  ghost predicate KeysDistinct<K, E>(s: seq<HashElement<K, E>>) {
    forall i, j | 0 <= i < j < |s| :: s[i].key != s[j].key
  }

  lemma KeysWithout<K, E>(s: seq<HashElement<K, E>>, i: nat)
    requires i < |s| && KeysDistinct(s)
    ensures KeysDistinct(Without(s, i))
  {
  }

  lemma KeysAppend<K, E>(s: seq<HashElement<K, E>>, n: HashElement<K, E>)
    requires KeysDistinct(s) && forall i | 0 <= i < |s| :: s[i].key != n.key
    ensures KeysDistinct(s + [n])
  {
  }

  lemma PairsWithout<K, E>(s: seq<HashElement<K, E>>, i: nat)
    requires i < |s|
    ensures Pairs(Without(s, i)) == Without(Pairs(s), i)
  {
  }

  class RTPKeyHashTable<Key(==), Element> {
    const hash: Key -> int
    const table: array<HashElement?<Key, Element>>
    var firstHashElem: HashElement?<Key, Element>
    var lastHashElem: HashElement?<Key, Element>
    var curHashElem: HashElement?<Key, Element>

    /** The nodes in order of insertion, and the nodes of every bucket in chain order. */
    ghost var list: seq<HashElement<Key, Element>>
    ghost var buckets: seq<seq<HashElement<Key, Element>>>
    ghost var nodes: set<HashElement<Key, Element>>

    ghost predicate InList(n: HashElement<Key, Element>)
      reads this`list, n`listPos
    {
      n.listPos < |list| && list[n.listPos] == n
    }

    /** The nodes `ns` are exactly those of the list, linked both ways, with different keys. */
    ghost predicate ListValid(ns: set<HashElement<Key, Element>>)
      reads this`list, this`firstHashElem, this`lastHashElem, ns`listPrev, ns`listNext, ns`listPos
    {
      && ns == NodesOf(list) && KeysDistinct(list)
      && ListLinked(list) && firstHashElem == At(list, 0) && lastHashElem == At(list, |list| - 1)
    }

    /** A node hangs in the chain of its own bucket. */
    ghost predicate InItsBucket(n: HashElement<Key, Element>)
      reads this`buckets, n`hashPos
    {
      && n.hashIndex == hash(n.key)
      && 0 <= n.hashIndex < |buckets|
      && n.hashPos < |buckets[n.hashIndex]|
      && buckets[n.hashIndex][n.hashPos] == n
    }

    /** Bucket `b` starts a well linked chain of nodes out of `ns`. */
    ghost predicate BucketValid(b: nat, ns: set<HashElement<Key, Element>>)
      reads this`buckets, table, ns`hashPrev, ns`hashNext, ns`hashPos
    {
      && b < |buckets| == table.Length
      && (forall i | 0 <= i < |buckets[b]| :: buckets[b][i] in ns)
      && table[b] == At(buckets[b], 0) && ChainLinked(b, buckets[b])
    }

    /** The nodes `ns` are exactly those of the chains, each in its own bucket. */
    ghost predicate BucketsValid(ns: set<HashElement<Key, Element>>)
      reads this`buckets, table, ns`hashPrev, ns`hashNext, ns`hashPos
    {
      && |buckets| == table.Length
      && (forall b | 0 <= b < |buckets| :: BucketValid(b, ns))
      && (forall n | n in ns :: InItsBucket(n))
    }

    ghost predicate Valid()
      reads this, table, nodes
    {
      ListValid(nodes) && BucketsValid(nodes)
    }

    /** The cursor means something only after a `Goto*`; the constructor and `Clear` leave it alone. */
    ghost predicate HasCursor()
      reads this`curHashElem, this`nodes
    {
      curHashElem == null || curHashElem in nodes
    }

    /** The content: keys and elements in order of insertion. */
    ghost function Contents(): seq<(Key, Element)>
      reads this`list
    {
      Pairs(list)
    }

    ghost predicate Has(k: Key)
      reads this`list
    {
      exists i :: 0 <= i < |list| && list[i].key == k
    }

    constructor (hash: Key -> int, hashSize: nat)
      ensures Valid() && list == [] && fresh(table) && table.Length == hashSize && this.hash == hash
    {
      this.hash := hash;
      table := new HashElement?<Key, Element>[hashSize](_ => null);
      firstHashElem, lastHashElem, curHashElem := null, null, *;
      list := [];
      nodes := {};
      buckets := seq(hashSize, _ => []);
    }

    /** Walks a chain; `HasElement` and the first halves of `GotoElement` and `AddElement`. */
    method Find(k: Key, index: int) returns (e: HashElement?<Key, Element>)
      requires Valid() && 0 <= index < table.Length && index == hash(k)
      ensures e == null ==> !Has(k)
      ensures e != null ==> e in nodes && e.key == k
    {
      ghost var chain := buckets[index];
      assert BucketValid(index, nodes);
      e := table[index];
      ghost var i := 0;
      while e != null && e.key != k
        invariant 0 <= i <= |chain| && e == At(chain, i)
        invariant forall j | 0 <= j < i :: chain[j].key != k
        decreases |chain| - i
      {
        assert ChainAt(chain, i);
        e := e.hashNext;
        i := i + 1;
      }
      if e == null {
        forall j | 0 <= j < |list|
          ensures list[j].key != k
        {
          assert InItsBucket(list[j]);
        }
      }
    }

    method HasElement(k: Key) returns (found: bool)
      requires Valid() && hash(k) >= 0
      ensures found <==> Has(k)
    {
      var index := hash(k);
      if index >= table.Length {
        assert forall i | 0 <= i < |list| :: InItsBucket(list[i]);
        return false;
      }
      var e := Find(k, index);
      found := e != null;
    }

    method GotoElement(k: Key) returns (status: Status)
      requires Valid() && hash(k) >= 0
      modifies this`curHashElem
      ensures Valid()
      ensures status.Success? <==> Has(k)
      ensures status.Success? ==> curHashElem != null && InList(curHashElem) && curHashElem.key == k
      ensures hash(k) < table.Length ==> HasCursor() && (status.Failure? ==> curHashElem == null)
      ensures hash(k) >= table.Length ==> status == Failure(InvalidHashIndex) && curHashElem == old(curHashElem)
    {
      var index := hash(k);
      if index >= table.Length {
        assert forall i | 0 <= i < |list| :: InItsBucket(list[i]);
        return Failure(InvalidHashIndex);
      }
      curHashElem := Find(k, index);
      status := if curHashElem == null then Failure(KeyNotFound) else Success;
    }

    method GotoFirstElement()
      requires Valid()
      modifies this`curHashElem
      ensures Valid() && HasCursor() && curHashElem == At(list, 0)
    {
      curHashElem := firstHashElem;
    }

    method GotoLastElement()
      requires Valid()
      modifies this`curHashElem
      ensures Valid() && HasCursor() && curHashElem == At(list, |list| - 1)
    {
      curHashElem := lastHashElem;
    }

    method GotoNextElement()
      requires Valid() && HasCursor()
      modifies this`curHashElem
      ensures Valid() && HasCursor()
      ensures curHashElem == if old(curHashElem) == null then null else At(list, old(curHashElem.listPos) + 1)
    {
      if curHashElem != null {
        assert InList(curHashElem) && ListAt(list, curHashElem.listPos);
        curHashElem := curHashElem.listNext;
      }
    }

    method GotoPreviousElement()
      requires Valid() && HasCursor()
      modifies this`curHashElem
      ensures Valid() && HasCursor()
      ensures curHashElem == if old(curHashElem) == null then null else At(list, old(curHashElem.listPos) - 1)
    {
      if curHashElem != null {
        assert InList(curHashElem) && ListAt(list, curHashElem.listPos);
        curHashElem := curHashElem.listPrev;
      }
    }

    /** Puts a new node at the head of the chain of its bucket. */
    method PushOnChain(n: HashElement<Key, Element>, ghost chain: seq<HashElement<Key, Element>>)
      requires 0 <= n.hashIndex < table.Length && table[n.hashIndex] == At(chain, 0)
      requires ChainLinked(n.hashIndex, chain) && n !in chain
      requires n.hashPrev == null && n.hashNext == null
      modifies table, n`hashNext, n`hashPos, chain`hashPrev, chain`hashPos
      ensures ChainLinked(n.hashIndex, [n] + chain)
      ensures table[..] == old(table[..])[n.hashIndex := n]
    {
      var index := n.hashIndex;
      var e := table[index];
      table[index] := n;
      n.hashNext := e;
      if e != null {
        e.hashPrev := n;
      }
      n.hashPos := 0;
      forall i | 0 <= i < |chain| {
        chain[i].hashPos := i + 1;
      }
      forall i | 0 <= i < |chain| + 1
        ensures ChainAt([n] + chain, i)
      {
        assert i > 0 ==> old(ChainAt(chain, i - 1));
      }
    }

    method LinkIntoBucket(n: HashElement<Key, Element>, ghost ns: set<HashElement<Key, Element>>)
      requires BucketsValid(ns) && n !in ns
      requires 0 <= n.hashIndex < table.Length && n.hashIndex == hash(n.key)
      requires n.hashPrev == null && n.hashNext == null
      modifies this`buckets, table, n`hashNext, n`hashPos, ns`hashPrev, ns`hashPos
      ensures BucketsValid(ns + {n})
    {
      ghost var index := n.hashIndex;
      assert BucketValid(index, ns);
      ghost var chain := buckets[index];
      PushOnChain(n, chain);
      buckets := buckets[index := [n] + chain];
      forall b | 0 <= b < |buckets|
        ensures BucketValid(b, ns + {n})
      {
        assert old(BucketValid(b, ns));
      }
      assert ([n] + chain)[0] == n;
      assert InItsBucket(n);
      forall m | m in ns
        ensures InItsBucket(m)
      {
        assert old(InItsBucket(m));
        assert m.hashIndex == index ==> ([n] + chain)[old(m.hashPos) + 1] == m;
      }
    }

    /** Puts a new node at the end of the list. */
    method LinkIntoList(n: HashElement<Key, Element>, ghost ns: set<HashElement<Key, Element>>)
      requires ListValid(ns) && n !in ns
      requires forall i | 0 <= i < |list| :: list[i].key != n.key
      requires n.listPrev == null && n.listNext == null
      modifies this`list, this`firstHashElem, this`lastHashElem, n`listPrev, n`listPos, ns`listNext
      ensures ListValid(ns + {n}) && list == old(list) + [n]
    {
      if firstHashElem == null {
        firstHashElem := n;
        lastHashElem := n;
      } else {
        lastHashElem.listNext := n;
        n.listPrev := lastHashElem;
        lastHashElem := n;
      }
      KeysAppend(list, n);
      hide KeysDistinct;
      n.listPos := |list|;
      list := list + [n];
      forall i | 0 <= i < |list|
        ensures ListAt(list, i)
      {
        assert i < |list| - 1 ==> old(ListAt(list, i));
      }
    }

    /** Links a new node into its bucket and into the list. */
    method Insert(n: HashElement<Key, Element>)
      requires Valid() && n !in nodes && !Has(n.key)
      requires 0 <= n.hashIndex < table.Length && n.hashIndex == hash(n.key)
      requires n.hashPrev == null && n.hashNext == null && n.listPrev == null && n.listNext == null
      modifies this`list, this`buckets, this`nodes, this`firstHashElem, this`lastHashElem, table, nodes, n
      ensures Valid() && nodes == old(nodes) + {n} && list == old(list) + [n]
    {
      hide ListValid, BucketsValid;
      LinkIntoBucket(n, nodes);
      LinkIntoList(n, nodes);
      nodes := nodes + {n};
    }

    /** Adds an element at the end of the order; an existing key is refused. */
    method AddElement(k: Key, e: Element) returns (status: Status)
      requires Valid() && hash(k) >= 0
      modifies this`list, this`buckets, this`nodes, this`firstHashElem, this`lastHashElem, table, nodes
      ensures Valid() && (old(HasCursor()) ==> HasCursor())
      ensures status == (if hash(k) >= table.Length then Failure(InvalidHashIndex)
                         else if old(Has(k)) then Failure(KeyAlreadyExists) else Success)
      ensures status.Failure? ==> list == old(list)
      ensures status.Success? ==> old(list) <= list && Contents() == old(Contents()) + [(k, e)]
      ensures status.Success? ==> fresh(list[|old(list)|])
      ensures nodes == old(nodes) || (fresh(list[|old(list)|]) && nodes == old(nodes) + {list[|old(list)|]})
    {
      var index := hash(k);
      if index >= table.Length {
        return Failure(InvalidHashIndex);
      }
      var existing := Find(k, index);
      if existing != null {
        return Failure(KeyAlreadyExists);
      }
      var n := new HashElement(k, e, index);
      Insert(n);
      status := Success;
    }

    /** Relinks the neighbours of a node of a chain. */
    method CutFromBucket(n: HashElement<Key, Element>, ghost chain: seq<HashElement<Key, Element>>)
      requires 0 <= n.hashIndex < table.Length && table[n.hashIndex] == At(chain, 0)
      requires ChainLinked(n.hashIndex, chain) && n.hashPos < |chain| && chain[n.hashPos] == n
      modifies table, chain`hashPrev, chain`hashNext
      ensures forall k | 0 <= k < |chain| :: k != n.hashPos ==> ChainCutAt(chain, n.hashPos, k)
      ensures table[..] == old(table[..])[n.hashIndex := At(chain, if n.hashPos == 0 then 1 else 0)]
    {
      assert ChainAt(chain, n.hashPos);
      var prev, next := n.hashPrev, n.hashNext;
      if prev == null {
        table[n.hashIndex] := next;
        if next != null {
          next.hashPrev := null;
        }
      } else {
        prev.hashNext := next;
        if next != null {
          next.hashPrev := prev;
        }
      }
      forall k | 0 <= k < |chain| && k != n.hashPos
        ensures ChainCutAt(chain, n.hashPos, k)
      {
        assert old(ChainAt(chain, k)) && chain[k].hashPos == k;
      }
    }

    /** A chain without one of its nodes. */
    method CutChain(n: HashElement<Key, Element>, ghost chain: seq<HashElement<Key, Element>>)
      requires 0 <= n.hashIndex < table.Length && table[n.hashIndex] == At(chain, 0)
      requires ChainLinked(n.hashIndex, chain) && n.hashPos < |chain| && chain[n.hashPos] == n
      modifies table, chain`hashPrev, chain`hashNext, chain`hashPos
      ensures old(n.hashPos) < |chain| && ChainLinked(n.hashIndex, Without(chain, old(n.hashPos)))
      ensures table[..] == old(table[..])[n.hashIndex := At(Without(chain, old(n.hashPos)), 0)]
      ensures forall k | 0 <= k < |chain| :: chain[k].hashPos == if k > old(n.hashPos) then k - 1 else k
    {
      hide ChainCutAt;
      ghost var pos := n.hashPos;
      CutFromBucket(n, chain);
      CloseChainGap(chain, pos);
      ChainWithout(n.hashIndex, chain, pos);
    }

    /** Takes a node out of its chain. */
    method UnlinkFromBucket(n: HashElement<Key, Element>, ghost ns: set<HashElement<Key, Element>>)
      requires BucketsValid(ns) && n in ns
      modifies this`buckets, table, ns`hashPrev, ns`hashNext, ns`hashPos
      ensures BucketsValid(ns - {n})
    {
      hide ChainAt;
      ghost var index, pos := n.hashIndex, n.hashPos;
      assert InItsBucket(n) && BucketValid(index, ns);
      ghost var chain := buckets[index];
      CutChain(n, chain);
      buckets := buckets[index := Without(chain, pos)];
      forall b | 0 <= b < |buckets|
        ensures BucketValid(b, ns - {n})
      {
        assert old(BucketValid(b, ns));
      }
      forall m | m in ns && m != n
        ensures InItsBucket(m)
      {
        assert old(InItsBucket(m));
      }
    }

    /** Relinks the neighbours of a node of the list. */
    method CutFromList(n: HashElement<Key, Element>)
      requires ListLinked(list) && InList(n)
      requires firstHashElem == At(list, 0) && lastHashElem == At(list, |list| - 1)
      modifies this`firstHashElem, this`lastHashElem, list`listPrev, list`listNext
      ensures forall k | 0 <= k < |list| :: k != n.listPos ==> ListCutAt(list, n.listPos, k)
      ensures firstHashElem == At(list, if n.listPos == 0 then 1 else 0)
      ensures lastHashElem == At(list, if n.listPos == |list| - 1 then |list| - 2 else |list| - 1)
    {
      assert ListAt(list, n.listPos);
      var prev, next := n.listPrev, n.listNext;
      if prev == null {
        firstHashElem := next;
        if next != null {
          next.listPrev := null;
        } else {
          lastHashElem := null;
        }
      } else {
        prev.listNext := next;
        if next != null {
          next.listPrev := prev;
        } else {
          lastHashElem := prev;
        }
      }
      forall k | 0 <= k < |list| && k != n.listPos
        ensures ListCutAt(list, n.listPos, k)
      {
        assert old(ListAt(list, k)) && list[k].listPos == k;
      }
    }

    /** Takes a node out of the list. */
    method UnlinkFromList(n: HashElement<Key, Element>, ghost ns: set<HashElement<Key, Element>>)
      requires ListValid(ns) && n in ns
      modifies this`list, this`firstHashElem, this`lastHashElem, ns`listPrev, ns`listNext, ns`listPos
      ensures old(n.listPos) < |old(list)|
      ensures ListValid(ns - {n}) && list == Without(old(list), old(n.listPos))
    {
      hide KeysDistinct, ListLinked, NodesOf, ListAt;
      ghost var pos := n.listPos;
      InListOf(n, ns);
      CutList(n);
      KeysWithout(list, pos);
      NodesWithout(list, pos);
      list := Without(list, pos);
    }

    lemma InListOf(n: HashElement<Key, Element>, ns: set<HashElement<Key, Element>>)
      requires ListValid(ns) && n in ns
      ensures InList(n) && ns == (set m | m in list)
    {
    }

    /** The list without one of its nodes. */
    method CutList(n: HashElement<Key, Element>)
      requires ListLinked(list) && InList(n)
      requires firstHashElem == At(list, 0) && lastHashElem == At(list, |list| - 1)
      modifies this`firstHashElem, this`lastHashElem, list`listPrev, list`listNext, list`listPos
      ensures old(n.listPos) < |list| && list[old(n.listPos)] == n && ListLinked(Without(list, old(n.listPos)))
      ensures firstHashElem == At(Without(list, old(n.listPos)), 0)
      ensures lastHashElem == At(Without(list, old(n.listPos)), |list| - 2)
    {
      hide ListCutAt;
      ghost var pos := n.listPos;
      CutFromList(n);
      CloseListGap(list, pos);
      ListWithout(list, pos);
    }

    /** Takes a node out of its bucket and out of the list. */
    method Remove(n: HashElement<Key, Element>)
      requires Valid() && n in nodes
      modifies this`list, this`buckets, this`nodes, this`firstHashElem, this`lastHashElem, table, nodes
      ensures old(n.listPos) < |old(list)|
      ensures Valid() && nodes == old(nodes) - {n} && list == Without(old(list), old(n.listPos))
    {
      hide ListValid, BucketsValid;
      UnlinkFromBucket(n, nodes);
      UnlinkFromList(n, nodes);
      nodes := nodes - {n};
    }

    /** Deletes the element under the cursor and moves the cursor to its successor in the order. */
    method DeleteCurrentElement() returns (status: Status)
      requires Valid() && HasCursor()
      modifies this, table, nodes
      ensures Valid() && HasCursor() && nodes <= old(nodes)
      ensures old(curHashElem) == null ==>
        status == Failure(NoCurrentElement) && list == old(list) && curHashElem == null
      ensures old(curHashElem) != null ==>
        var i := old(curHashElem.listPos);
        && status == Success && list == Without(old(list), i)
        && curHashElem == At(list, i)
        && Contents() == Without(old(Contents()), i)
    {
      if curHashElem == null {
        return Failure(NoCurrentElement);
      }
      var n := curHashElem;
      assert InList(n) && ListAt(list, n.listPos);
      var next := n.listNext;
      PairsWithout(list, n.listPos);
      Remove(n);
      curHashElem := next;
      status := Success;
    }

    method DeleteElement(k: Key) returns (status: Status)
      requires Valid() && hash(k) >= 0
      modifies this, table, nodes
      ensures Valid()
      ensures status.Success? <==> old(Has(k))
      ensures status.Failure? ==> list == old(list)
      ensures forall i | 0 <= i < |old(list)| :: old(list)[i].key == k ==> list == Without(old(list), i)
    {
      status := GotoElement(k);
      if status.Failure? {
        return;
      }
      status := DeleteCurrentElement();
    }

    /** Empties the table; the cursor keeps its value. */
    method Clear()
      requires Valid()
      modifies this`list, this`buckets, this`nodes, this`firstHashElem, this`lastHashElem, table
      ensures Valid() && list == []
    {
      for i := 0 to table.Length
        invariant forall b | 0 <= b < i :: table[b] == null
      {
        table[i] := null;
      }
      firstHashElem := null;
      lastHashElem := null;
      list := [];
      nodes := {};
      buckets := seq(table.Length, _ => []);
    }
  }
}
