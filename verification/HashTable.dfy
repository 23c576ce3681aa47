/**
 The start-node operations of lock_free_list.hpp as one thread runs them.  The
 caller passes the node to start from by value, so that `&start` is the address
 of a local variable: an update there is lost when the call returns.
 */
module StartList {
  type Addr = int

  const NULL: Addr := 0

  datatype Node = Node(key: nat, value: nat, next: Addr)

  /** A `Node**`: the caller's copy of the start pointer, or a `next` field. */
  datatype Loc = Local | NextOf(node: Addr)

  ghost function Nth(c: seq<Addr>, i: nat): Addr {
    if i < |c| then c[i] else NULL
  }

  ghost predicate PointsOn(heap: map<Addr, Node>, c: seq<Addr>, i: nat) {
    i < |c| && c[i] in heap && heap[c[i]].next == Nth(c, i + 1)
  }

  /** `c` is a linked chain of nodes with strictly increasing keys. */
  ghost predicate IsList(heap: map<Addr, Node>, c: seq<Addr>) {
    && (forall i :: 0 <= i < |c| ==> c[i] in heap)
    && (forall i, j :: 0 <= i < j < |c| ==> heap[c[i]].key < heap[c[j]].key)
    && (forall i :: 0 <= i < |c| ==> PointsOn(heap, c, i))
  }

  /** The chain holds exactly these keys, with these values. */
  ghost predicate Holds(heap: map<Addr, Node>, c: seq<Addr>, contents: map<nat, nat>)
    requires forall i :: 0 <= i < |c| ==> c[i] in heap
  {
    && (forall i :: 0 <= i < |c| ==> heap[c[i]].key in contents && contents[heap[c[i]].key] == heap[c[i]].value)
    && (c == [] ==> contents == map[])
    && (forall k {:trigger HasKey(heap, c, k)} :: k in contents ==> HasKey(heap, c, k))
  }

  ghost predicate HasKey(heap: map<Addr, Node>, c: seq<Addr>, k: nat) {
    exists i :: 0 <= i < |c| && c[i] in heap && heap[c[i]].key == k
  }

  /** All nodes but one with key `k` stay on the chain and keep their keys. */
  ghost predicate Keeps(heap: map<Addr, Node>, c: seq<Addr>, heap': map<Addr, Node>, c': seq<Addr>, k: nat) {
    forall x :: x in c && x in heap && heap[x].key != k ==> x in c' && x in heap' && heap'[x].key == heap[x].key
  }

  /** `a` points to the node of the chain with this key. */
  ghost predicate PointsTo(heap: map<Addr, Node>, c: seq<Addr>, a: Addr, key: nat) {
    a in c && a in heap && heap[a].key == key
  }

  lemma Distinct(heap: map<Addr, Node>, c: seq<Addr>)
    requires IsList(heap, c)
    ensures forall i, j :: 0 <= i < j < |c| ==> c[i] != c[j]
  {
    forall i, j | 0 <= i < j < |c| ensures c[i] != c[j] {
      assert heap[c[i]].key < heap[c[j]].key;
    }
  }

  // ----- inserting behind position i -----

  lemma InsertedLinks(heap: map<Addr, Node>, c: seq<Addr>, i: nat, a: Addr, n: Node, h: map<Addr, Node>, c': seq<Addr>)
    requires IsList(heap, c) && i < |c| && a !in heap
    requires n.next == Nth(c, i + 1)
    requires h == heap[a := n][c[i] := heap[c[i]].(next := a)]
    requires c' == c[..i + 1] + [a] + c[i + 1..]
    ensures forall j :: 0 <= j < |c'| ==> PointsOn(h, c', j)
  {
    Distinct(heap, c);
    forall j | 0 <= j < |c'| ensures PointsOn(h, c', j) {
      if j <= i {
        assert c'[j] == c[j] && PointsOn(heap, c, j);
      } else if j > i + 1 {
        assert c'[j] == c[j - 1] && PointsOn(heap, c, j - 1);
      }
    }
  }

  lemma InsertedSorted(heap: map<Addr, Node>, c: seq<Addr>, i: nat, a: Addr, h: map<Addr, Node>, c': seq<Addr>)
    requires IsList(heap, c) && i < |c| && a in h
    requires forall j :: 0 <= j < |c| ==> c[j] in h && h[c[j]].key == heap[c[j]].key
    requires heap[c[i]].key < h[a].key && (i + 1 < |c| ==> h[a].key < heap[c[i + 1]].key)
    requires c' == c[..i + 1] + [a] + c[i + 1..]
    ensures forall j :: 0 <= j < |c'| ==> c'[j] in h
    ensures forall j, k :: 0 <= j < k < |c'| ==> h[c'[j]].key < h[c'[k]].key
  {
    forall j, k | 0 <= j < k < |c'| ensures c'[j] in h && c'[k] in h && h[c'[j]].key < h[c'[k]].key {
      if j < i && k == i + 1 { assert heap[c[j]].key < heap[c[i]].key; }
      if j == i + 1 && k > i + 2 { assert heap[c[i + 1]].key < heap[c[k - 1]].key; }
    }
  }

  lemma InsertedHolds(heap: map<Addr, Node>, c: seq<Addr>, i: nat, a: Addr, h: map<Addr, Node>, c': seq<Addr>,
                      m: map<nat, nat>)
    requires (forall j :: 0 <= j < |c| ==> c[j] in heap) && Holds(heap, c, m) && i < |c| && a in h && h[a].key !in m
    requires forall j :: 0 <= j < |c| ==>
      c[j] in h && h[c[j]].key == heap[c[j]].key && h[c[j]].value == heap[c[j]].value
    requires c' == c[..i + 1] + [a] + c[i + 1..]
    ensures forall j :: 0 <= j < |c'| ==> c'[j] in h
    ensures Holds(h, c', m[h[a].key := h[a].value])
  {
    var m' := m[h[a].key := h[a].value];
    forall j | 0 <= j < |c'| ensures c'[j] in h && h[c'[j]].key in m' && m'[h[c'[j]].key] == h[c'[j]].value {
      assert c'[j] == if j <= i then c[j] else if j == i + 1 then a else c[j - 1];
    }
    forall k | k in m' ensures HasKey(h, c', k) {
      if k == h[a].key {
        assert c'[i + 1] == a;
      } else {
        assert HasKey(heap, c, k);
        var j :| 0 <= j < |c| && heap[c[j]].key == k;
        assert c'[if j <= i then j else j + 1] == c[j];
      }
    }
  }

  /** Linking a new node behind position `i`. */
  lemma Inserted(heap: map<Addr, Node>, c: seq<Addr>, i: nat, a: Addr, n: Node, m: map<nat, nat>)
    requires IsList(heap, c) && Holds(heap, c, m) && i < |c| && a !in heap
    requires n.key !in m && n.next == Nth(c, i + 1)
    requires heap[c[i]].key < n.key && (i + 1 < |c| ==> n.key < heap[c[i + 1]].key)
    ensures
      var h := heap[a := n][c[i] := heap[c[i]].(next := a)];
      var c' := c[..i + 1] + [a] + c[i + 1..];
      && IsList(h, c') && Holds(h, c', m[n.key := n.value]) && a in c'
      && Keeps(heap, c, h, c', n.key)
  {
    var h := heap[a := n][c[i] := heap[c[i]].(next := a)];
    var c' := c[..i + 1] + [a] + c[i + 1..];
    InsertedLinks(heap, c, i, a, n, h, c');
    InsertedSorted(heap, c, i, a, h, c');
    InsertedHolds(heap, c, i, a, h, c', m);
    assert c'[i + 1] == a;
    forall x | x in c ensures x in c' && x in h && h[x].key == heap[x].key {
      var j :| 0 <= j < |c| && c[j] == x;
      assert c'[if j <= i then j else j + 1] == x;
    }
  }

  /** The first node of an empty list. */
  lemma InsertedFirst(heap: map<Addr, Node>, a: Addr, n: Node, m: map<nat, nat>)
    requires Holds(heap, [], m) && n.next == NULL
    ensures
      var h := heap[a := n];
      IsList(h, [a]) && Holds(h, [a], m[n.key := n.value]) && a in [a]
  {
    var h := heap[a := n];
    assert PointsOn(h, [a], 0);
    forall k | k in m[n.key := n.value] ensures HasKey(h, [a], k) {
      assert [a][0] == a;
    }
  }

  /** A node that only a local variable points to. */
  lemma InsertedNowhere(heap: map<Addr, Node>, c: seq<Addr>, a: Addr, n: Node, m: map<nat, nat>)
    requires IsList(heap, c) && Holds(heap, c, m) && a !in heap
    ensures
      var h := heap[a := n];
      IsList(h, c) && Holds(h, c, m) && Keeps(heap, c, h, c, n.key)
  {
    var h := heap[a := n];
    forall i | 0 <= i < |c| ensures PointsOn(h, c, i) { assert PointsOn(heap, c, i); }
    forall k | k in m ensures HasKey(h, c, k) { assert HasKey(heap, c, k); }
  }

  // ----- removing position i + 1 -----

  lemma RemovedLinks(heap: map<Addr, Node>, c: seq<Addr>, i: nat, h: map<Addr, Node>, c': seq<Addr>)
    requires IsList(heap, c) && i + 1 < |c|
    requires h == heap[c[i] := heap[c[i]].(next := Nth(c, i + 2))] - {c[i + 1]}
    requires c' == c[..i + 1] + c[i + 2..]
    ensures forall j :: 0 <= j < |c'| ==> PointsOn(h, c', j)
    ensures forall j :: 0 <= j < |c'| ==>
      c'[j] in h && c'[j] in heap && h[c'[j]].key == heap[c'[j]].key && h[c'[j]].value == heap[c'[j]].value
  {
    Distinct(heap, c);
    forall j | 0 <= j < |c'|
      ensures PointsOn(h, c', j)
      ensures c'[j] in h && c'[j] in heap && h[c'[j]].key == heap[c'[j]].key && h[c'[j]].value == heap[c'[j]].value
    {
      if j <= i {
        assert c'[j] == c[j] && PointsOn(heap, c, j);
      } else {
        assert c'[j] == c[j + 1] && PointsOn(heap, c, j + 1);
      }
    }
  }

  lemma RemovedSorted(heap: map<Addr, Node>, c: seq<Addr>, i: nat, h: map<Addr, Node>, c': seq<Addr>)
    requires forall j :: 0 <= j < |c| ==> c[j] in heap
    requires forall j, k :: 0 <= j < k < |c| ==> heap[c[j]].key < heap[c[k]].key
    requires i + 1 < |c| && c' == c[..i + 1] + c[i + 2..]
    requires forall j :: 0 <= j < |c'| ==> c'[j] in h && c'[j] in heap && h[c'[j]].key == heap[c'[j]].key
    ensures forall j, k :: 0 <= j < k < |c'| ==> h[c'[j]].key < h[c'[k]].key
  {
  }

  lemma RemovedHolds(heap: map<Addr, Node>, c: seq<Addr>, i: nat, h: map<Addr, Node>, c': seq<Addr>, m: map<nat, nat>)
    requires forall j :: 0 <= j < |c| ==> c[j] in heap
    requires forall j, k :: 0 <= j < k < |c| ==> heap[c[j]].key < heap[c[k]].key
    requires Holds(heap, c, m) && i + 1 < |c| && c' == c[..i + 1] + c[i + 2..]
    requires forall j :: 0 <= j < |c'| ==>
      c'[j] in h && c'[j] in heap && h[c'[j]].key == heap[c'[j]].key && h[c'[j]].value == heap[c'[j]].value
    ensures Holds(h, c', m - {heap[c[i + 1]].key})
  {
    var m' := m - {heap[c[i + 1]].key};
    forall j | 0 <= j < |c'| ensures h[c'[j]].key in m' && m'[h[c'[j]].key] == h[c'[j]].value {
      if j <= i {
        assert c'[j] == c[j] && heap[c[j]].key < heap[c[i + 1]].key;
      } else {
        assert c'[j] == c[j + 1] && heap[c[i + 1]].key < heap[c[j + 1]].key;
      }
    }
    forall k | k in m' ensures HasKey(h, c', k) {
      assert HasKey(heap, c, k);
      var j :| 0 <= j < |c| && heap[c[j]].key == k;
      assert c'[if j <= i then j else j - 1] == c[j];
    }
  }

  /** Unlinking the node behind position `i`. */
  lemma Unlinked(heap: map<Addr, Node>, c: seq<Addr>, i: nat, m: map<nat, nat>)
    requires IsList(heap, c) && Holds(heap, c, m) && i + 1 < |c|
    ensures
      var a := c[i + 1];
      var h := heap[c[i] := heap[c[i]].(next := heap[a].next)] - {a};
      var c' := c[..i + 1] + c[i + 2..];
      && IsList(h, c') && Holds(h, c', m - {heap[a].key})
      && Keeps(heap, c, h, c', heap[a].key)
  {
    var a := c[i + 1];
    assert PointsOn(heap, c, i + 1);
    var h := heap[c[i] := heap[c[i]].(next := heap[a].next)] - {a};
    var c' := c[..i + 1] + c[i + 2..];
    RemovedLinks(heap, c, i, h, c');
    RemovedSorted(heap, c, i, h, c');
    RemovedHolds(heap, c, i, h, c', m);
    forall x | x in c && heap[x].key != heap[a].key ensures x in c' && x in h && h[x].key == heap[x].key {
      var j :| 0 <= j < |c| && c[j] == x;
      assert c'[if j <= i then j else j - 1] == x;
    }
    assert IsList(h, c');
  }

  /** What a client may know about a list. */
  datatype View = View(heap: map<Addr, Node>, chain: seq<Addr>, contents: map<nat, nat>)

  class List {
    var heap: map<Addr, Node>
    var brk: Addr                   // the allocator's next address
    ghost var chain: seq<Addr>        // the nodes reachable from the first one
    ghost var contents: map<nat, nat> // their keys and values

    ghost predicate Valid()
      reads this
    {
      && NULL < brk
      && (forall a :: a in heap ==> NULL < a < brk)
      && IsList(heap, chain)
      && Holds(heap, chain, contents)
    }

    ghost function Snap(): View
      reads this
    {
      View(heap, chain, contents)
    }

    constructor ()
      ensures Valid() && chain == [] && contents == map[]
    {
      heap, brk, chain, contents := map[], 1, [], map[];
    }

    /** lookupInternal(&start, key): walks from `start`, the node itself included. */
    method LookupFrom(start: Addr, key: nat) returns (found: bool, prev: Loc, cur: Addr, ghost pos: nat)
      requires Valid() && (start != NULL ==> start in chain)
      ensures start == NULL ==> !found && prev == Local && cur == NULL
      ensures start != NULL && heap[start].key >= key ==>
        prev == Local && cur == start && found == (heap[start].key == key)
      ensures start != NULL && heap[start].key < key ==>
        && pos < |chain| && prev == NextOf(chain[pos]) && cur == Nth(chain, pos + 1)
        && heap[chain[pos]].key < key && (cur != NULL ==> heap[cur].key >= key)
        && found == (cur != NULL && heap[cur].key == key)
        && found == (key in contents)
      ensures found ==> cur in chain && heap[cur].key == key
    {
      prev, cur, found, pos := Local, start, false, 0;
      ghost var next: nat := |chain|;
      if start != NULL { next :| 0 <= next < |chain| && chain[next] == start; }
      while cur != NULL
        invariant start == NULL ==> cur == NULL && prev == Local
        invariant start != NULL ==> next <= |chain| && cur == Nth(chain, next)
        invariant prev == Local ==> cur == start
        invariant prev != Local ==>
          && heap[start].key < key && next > 0 && pos == next - 1
          && prev == NextOf(chain[pos]) && heap[chain[pos]].key < key
        decreases |chain| - next
      {
        assert PointsOn(heap, chain, next);
        var curKey := heap[cur].key;
        if curKey >= key {
          found := curKey == key;
          if prev != Local { KeyIsHere(pos, key); }
          return;
        }
        pos, prev, cur, next := next, NextOf(cur), heap[cur].next, next + 1;
      }
      if prev != Local { KeyIsHere(pos, key); }
    }

    /** A key between two neighbours of the chain is held only by the second. */
    lemma KeyIsHere(pos: nat, key: nat)
      requires Valid() && pos < |chain| && heap[chain[pos]].key < key
      requires pos + 1 < |chain| ==> heap[chain[pos + 1]].key >= key
      ensures key in contents <==> pos + 1 < |chain| && heap[chain[pos + 1]].key == key
    {
      if key in contents {
        assert HasKey(heap, chain, key);
      }
    }

    /** insert(start, key, value, flag).  From a start node with a smaller key
        this is a non-overwriting insert; otherwise the new node is linked only
        to the local copy of `start`, which makes it the first node of an empty
        list, and loses it if there is one already. */
    method InsertFrom(start: Addr, key: nat, value: nat, flag: bool) returns (node: Addr)
      requires Valid() && (if start == NULL then chain == [] else start in chain)
      modifies this
      ensures Valid()
      ensures Keeps(old(heap), old(chain), heap, chain, key)
      ensures old(start == NULL || (heap[start].key < key && key !in contents)) ==>
        node != NULL && contents == old(contents)[key := value] && PointsTo(heap, chain, node, key)
      ensures old(start != NULL && heap[start].key <= key && key in contents) ==>
        && contents == old(contents) && chain == old(chain)
        && (if flag then PointsTo(heap, chain, node, key) else node == NULL)
      ensures old(start != NULL && heap[start].key > key) ==>
        node != NULL && contents == old(contents) && chain == old(chain)
    {
      var found, prev, cur;
      ghost var pos;
      found, prev, cur, pos := LookupFrom(start, key);
      if found {
        node := if flag then cur else NULL;
      } else if start == NULL {
        node := LinkFirst(key, value);
      } else if prev == Local {
        node := LinkLost(start, key, value);
      } else {
        node := LinkBehind(prev.node, cur, key, value, pos);
      }
    }

    /** The CAS on the caller's copy of a NULL start pointer, before any node. */
    method LinkFirst(key: nat, value: nat) returns (node: Addr)
      requires Valid() && chain == []
      modifies this
      ensures Valid() && node != NULL
      ensures contents == old(contents)[key := value] && PointsTo(heap, chain, node, key)
    {
      var n := Node(key, value, NULL);
      node, brk := brk, brk + 1;
      InsertedFirst(heap, node, n, contents);
      chain, contents := [node], contents[key := value];
      heap := heap[node := n];
    }

    /** The CAS on the caller's copy of the start pointer: the node is lost. */
    method LinkLost(start: Addr, key: nat, value: nat) returns (node: Addr)
      requires Valid()
      modifies this
      ensures Valid() && node != NULL
      ensures Keeps(old(heap), old(chain), heap, chain, key)
      ensures contents == old(contents) && chain == old(chain)
    {
      var n := Node(key, value, start);
      node, brk := brk, brk + 1;
      InsertedNowhere(heap, chain, node, n, contents);
      heap := heap[node := n];
    }

    /** The CAS on the `next` field of a node of the chain. */
    method LinkBehind(prev: Addr, cur: Addr, key: nat, value: nat, ghost pos: nat) returns (node: Addr)
      requires Valid() && pos < |chain| && prev == chain[pos] && cur == Nth(chain, pos + 1) && key !in contents
      requires heap[prev].key < key && (cur != NULL ==> key < heap[cur].key)
      modifies this
      ensures Valid() && node != NULL
      ensures Keeps(old(heap), old(chain), heap, chain, key)
      ensures contents == old(contents)[key := value] && PointsTo(heap, chain, node, key)
    {
      var n := Node(key, value, cur);
      node, brk := brk, brk + 1;
      Inserted(heap, chain, pos, node, n, contents);
      heap := heap[node := n][prev := heap[prev].(next := node)];
      chain, contents := chain[..pos + 1] + [node] + chain[pos + 1..], contents[key := value];
    }

    /** remove(start, key).  With one thread the marking and the unlinking CAS
        both succeed, and the node then belongs to the hazard pointers.  If it is
        the start node itself, the unlinking CAS changes only the local copy of the
        start pointer: the list still links a node that is gone. */
    method RemoveFrom(start: Addr, key: nat) returns (ok: bool)
      requires Valid() && start in chain
      modifies this
      ensures Valid() <==> old(heap[start].key != key)
      ensures ok == old(heap[start].key <= key && key in contents)
      ensures old(heap[start].key == key) ==> ok && chain == old(chain) && heap == old(heap) - {start}
      ensures old(heap[start].key != key) ==>
        && contents == (if ok then old(contents) - {key} else old(contents))
        && Keeps(old(heap), old(chain), heap, chain, key) && start in chain && (!ok ==> chain == old(chain))
    {
      var prev, cur;
      ghost var pos;
      ok, prev, cur, pos := LookupFrom(start, key);
      if ok && prev == Local {
        heap := heap - {cur};
      } else if ok {
        Unlinked(heap, chain, pos, contents);
        heap := heap[prev.node := heap[prev.node].(next := heap[cur].next)] - {cur};
        chain, contents := chain[..pos + 1] + chain[pos + 2..], contents - {key};
      }
    }

    /** lookup(start, key, value). */
    method FindFrom(start: Addr, key: nat) returns (ok: bool, value: nat)
      requires Valid() && start in chain
      ensures ok == (heap[start].key <= key && key in contents)
      ensures ok ==> value == contents[key]
    {
      var prev, cur;
      ghost var pos;
      ok, prev, cur, pos := LookupFrom(start, key);
      value := 0;
      if ok { value := heap[cur].value; }
    }
  }
}

/**
 The split-ordered hash table of lock_free_hash_table.cpp, used by one thread.

 A key is stored under its low 31 bits.  The table finds a key exactly when the
 dummy of its bucket sorts before it (`SplitOrder.Fits`); an insert of a key
 that does not fit reports success and loses the entry.
 */
module HashTable {
  import opened SplitOrder
  import opened StartList

  const SEGMENT_SIZE: nat := 10000
  const TABLE_SIZE: nat := 10000
  const MAX_LOAD: nat := 10

  /** Bucket numbers that the segment table has room for. */
  const MAX_BUCKETS: nat := 1_0000_0000

  type Segments = map<nat, seq<Addr>>

  function BucketIn(segments: Segments, index: nat): Addr {
    var segment := index / SEGMENT_SIZE;
    if segment in segments && index % SEGMENT_SIZE < |segments[segment]|
    then segments[segment][index % SEGMENT_SIZE] else NULL
  }

  /** Each initialised bucket points to its dummy node, the other buckets have no
      dummy, and bucket 0 is initialised before anything else. */
  ghost predicate BucketsOk(segments: Segments, heap: map<Addr, Node>, c: seq<Addr>, contents: map<nat, nat>) {
    && (forall g :: g in segments ==> |segments[g]| == SEGMENT_SIZE)
    && (forall b: nat :: b < MAX_BUCKETS ==> BucketOk(segments, heap, c, contents, b))
    && (BucketIn(segments, 0) == NULL ==> c == [])
  }

  ghost predicate BucketOk(segments: Segments, heap: map<Addr, Node>, c: seq<Addr>, contents: map<nat, nat>, b: nat) {
    var a := BucketIn(segments, b);
    if a == NULL then DummyKey(b) !in contents else PointsTo(heap, c, a, DummyKey(b))
  }

  /** The regular nodes of the list are the entries of the table. */
  ghost predicate Represents(entries: map<nat, nat>, contents: map<nat, nat>) {
    && (forall k: nat :: k < TOP ==> (k in entries <==> RegularKey(k) in contents))
    && (forall k: nat :: k in entries ==> k < TOP && RegularKey(k) in contents && contents[RegularKey(k)] == entries[k])
  }

  ghost predicate TableOk(s: Segments, v: View, entries: map<nat, nat>, counter: nat, lost: nat) {
    && BucketsOk(s, v.heap, v.chain, v.contents)
    && Represents(entries, v.contents)
    && counter == |entries| + lost
  }

  lemma Member(entries: map<nat, nat>, contents: map<nat, nat>, key: nat)
    requires Represents(entries, contents)
    ensures key % TOP in entries <==> RegularKey(key) in contents
    ensures key % TOP in entries ==> contents[RegularKey(key)] == entries[key % TOP]
  {
    SameRegular(key);
  }

  lemma DummyRepresents(entries: map<nat, nat>, contents: map<nat, nat>, index: nat)
    requires Represents(entries, contents) && index < TOP
    ensures Represents(entries, contents[DummyKey(index) := 0])
  {
    forall k: nat | k < TOP ensures RegularKey(k) != DummyKey(index) { Parities(k, index); }
  }

  lemma InsertRepresents(entries: map<nat, nat>, contents: map<nat, nat>, key: nat, value: nat)
    requires Represents(entries, contents)
    ensures Represents(entries[key % TOP := value], contents[RegularKey(key) := value])
  {
    SameRegular(key);
    forall k: nat | k < TOP && RegularKey(k) == RegularKey(key) ensures k == key % TOP {
      RegularInjective(k, key);
      ModSmall(k, TOP);
    }
  }

  lemma RemoveRepresents(entries: map<nat, nat>, contents: map<nat, nat>, key: nat)
    requires Represents(entries, contents)
    ensures Represents(entries - {key % TOP}, contents - {RegularKey(key)})
  {
    SameRegular(key);
    forall k: nat | k < TOP && RegularKey(k) == RegularKey(key) ensures k == key % TOP {
      RegularInjective(k, key);
      ModSmall(k, TOP);
    }
  }

  lemma OneLess(entries: map<nat, nat>, k: nat)
    requires k in entries
    ensures |entries - {k}| == |entries| - 1
  {
    assert entries.Keys == (entries - {k}).Keys + {k};
    assert |entries.Keys| == |(entries - {k}).Keys| + 1;
  }

  /** A key and its low 31 bits have the same regular key. */
  lemma SameRegular(key: nat)
    ensures RegularKey(key % TOP) == RegularKey(key)
  {
    ModSmall(key % TOP, TOP);
  }

  class Table {
    const list: List
    var segments: Segments             // allocated segments of the bucket table
    var counter: nat
    var bucketsSize: nat
    ghost var entries: map<nat, nat>   // what the table holds, by 31-bit key
    ghost var lost: nat                // inserts that reported success in vain

    /** get_bucket. */
    function Bucket(index: nat): Addr
      reads this
    {
      BucketIn(segments, index)
    }

    ghost predicate Valid()
      reads this, list
    {
      && list.Valid()
      && bucketsSize > 0
      && TableOk(segments, list.Snap(), entries, counter, lost)
    }

    constructor ()
      ensures Valid() && fresh(list)
      ensures entries == map[] && lost == 0 && counter == 0 && bucketsSize == TABLE_SIZE
    {
      list := new List();
      segments, counter, bucketsSize := map[], 0, TABLE_SIZE;
      entries, lost := map[], 0;
    }

    /** set_bucket: allocates the segment if need be. */
    method SetBucket(index: nat, node: Addr)
      requires forall g :: g in segments ==> |segments[g]| == SEGMENT_SIZE
      modifies this`segments
      ensures forall g :: g in segments ==> |segments[g]| == SEGMENT_SIZE
      ensures forall b: nat :: BucketIn(segments, b) == if b == index then node else BucketIn(old(segments), b)
    {
      var segment := index / SEGMENT_SIZE;
      if segment !in segments {
        segments := segments[segment := seq(SEGMENT_SIZE, i => NULL)];
      }
      segments := segments[segment := segments[segment][index % SEGMENT_SIZE := node]];
    }

    /** initialize_bucket: inserts the dummy of a bucket behind the dummy of its
        parent, which it initialises first if need be. */
    method InitializeBucket(index: nat)
      requires Valid() && index < MAX_BUCKETS && Bucket(index) == NULL
      modifies this`segments, list
      ensures Valid() && Bucket(index) != NULL
      ensures forall b: nat :: b > index || BucketIn(old(segments), b) != NULL ==>
        BucketIn(segments, b) == BucketIn(old(segments), b)
      decreases index
    {
      var start := NULL;
      if index != 0 {
        var parent := GetParent(index);
        if Bucket(parent) == NULL { InitializeBucket(parent); }
        start := Bucket(parent);
        ParentSortsBefore(index);
        assert BucketOk(segments, list.heap, list.chain, list.contents, parent);
      }
      AddDummy(start, index);
    }

    method AddDummy(start: Addr, index: nat)
      requires Valid() && index < MAX_BUCKETS && Bucket(index) == NULL
      requires if index == 0 then start == NULL else
        start != NULL && start in list.chain && start in list.heap && list.heap[start].key < DummyKey(index)
      modifies this`segments, list
      ensures Valid() && Bucket(index) != NULL
      ensures forall b: nat :: b != index ==> BucketIn(segments, b) == BucketIn(old(segments), b)
    {
      assert BucketOk(segments, list.heap, list.chain, list.contents, index);
      var node := list.InsertFrom(start, DummyKey(index), 0, true);
      SetBucket(index, node);
      DummyAdded(old(segments), old(list.Snap()), segments, list.Snap(), entries, counter, lost, index, node);
    }

    /** The bucket to start from, initialised on first use. */
    method StartOf(index: nat) returns (start: Addr)
      requires Valid() && index < MAX_BUCKETS
      modifies this`segments, list
      ensures Valid() && BucketIn(segments, 0) != NULL
      ensures start != NULL && PointsTo(list.heap, list.chain, start, DummyKey(index))
    {
      if Bucket(index) == NULL { InitializeBucket(index); }
      start := Bucket(index);
      assert BucketOk(segments, list.heap, list.chain, list.contents, index);
    }

    /** insert.  A key that fits is added if it is absent.  A key that does not
        fit is reported as inserted every time, and never is. */
    method Insert(key: nat, value: nat) returns (ok: bool)
      requires Valid() && key < WORD && key % bucketsSize < MAX_BUCKETS
      modifies this, list
      ensures Valid()
      ensures ok == (!Fits(key, old(bucketsSize)) || key % TOP !in old(entries))
      ensures entries == if ok && Fits(key, old(bucketsSize)) then old(entries)[key % TOP := value] else old(entries)
      ensures lost == old(lost) + if Fits(key, old(bucketsSize)) then 0 else 1
      ensures counter == old(counter) + if ok then 1 else 0
      ensures bucketsSize ==
        if ok && counter / old(bucketsSize) > MAX_LOAD then 2 * old(bucketsSize) else old(bucketsSize)
    {
      var index := key % bucketsSize;
      var start := StartOf(index);
      ok := InsertRegular(start, index, key, value);
      if ok { MaybeGrow(); }
    }

    /** insert(start, regular key, value) and the count of the entries. */
    method InsertRegular(start: Addr, ghost index: nat, key: nat, value: nat) returns (ok: bool)
      requires Valid() && BucketIn(segments, 0) != NULL && index < MAX_BUCKETS
      requires start != NULL && PointsTo(list.heap, list.chain, start, DummyKey(index))
      modifies this`entries, this`lost, this`counter, list
      ensures Valid()
      ensures var fits := DummyKey(index) < RegularKey(key);
        && ok == (!fits || key % TOP !in old(entries))
        && entries == (if ok && fits then old(entries)[key % TOP := value] else old(entries))
        && lost == old(lost) + (if fits then 0 else 1)
        && counter == old(counter) + if ok then 1 else 0
    {
      Parities(key, index);
      Member(entries, list.contents, key);
      ghost var v := list.Snap();
      var node := list.InsertFrom(start, RegularKey(key), value, false);
      ok := node != NULL;
      if !ok {
        TableSame(segments, v, list.Snap(), entries, counter, lost, key);
      } else {
        counter := counter + 1;
        if DummyKey(index) > RegularKey(key) {
          lost := lost + 1;
          TableLost(segments, v, list.Snap(), entries, counter - 1, lost - 1, key);
        } else {
          TableInserted(segments, v, list.Snap(), entries, counter - 1, lost, key, value);
          entries := entries[key % TOP := value];
        }
      }
    }

    /** The load check of insert; with one thread its CAS succeeds. */
    method MaybeGrow()
      requires Valid()
      modifies this`bucketsSize
      ensures Valid()
      ensures bucketsSize == if counter / old(bucketsSize) > MAX_LOAD then 2 * old(bucketsSize) else old(bucketsSize)
    {
      var csize := bucketsSize;
      if counter / csize > MAX_LOAD {
        bucketsSize := 2 * csize;
      }
    }

    /** remove. */
    method Remove(key: nat) returns (ok: bool)
      requires Valid() && key < WORD
      modifies this, list
      ensures Valid()
      ensures ok == (Fits(key, TABLE_SIZE) && key % TOP in old(entries))
      ensures entries == if ok then old(entries) - {key % TOP} else old(entries)
      ensures lost == old(lost) && bucketsSize == old(bucketsSize)
      ensures counter == old(counter) - if ok then 1 else 0
    {
      var index := key % TABLE_SIZE;
      var start := StartOf(index);
      ok := RemoveRegular(start, index, key);
    }

    /** remove(start, regular key) and the count of the entries. */
    method RemoveRegular(start: Addr, ghost index: nat, key: nat) returns (ok: bool)
      requires Valid() && BucketIn(segments, 0) != NULL && index < MAX_BUCKETS
      requires start != NULL && PointsTo(list.heap, list.chain, start, DummyKey(index))
      modifies this`entries, this`counter, list
      ensures Valid()
      ensures ok == (DummyKey(index) < RegularKey(key) && key % TOP in old(entries))
      ensures entries == if ok then old(entries) - {key % TOP} else old(entries)
      ensures counter == old(counter) - if ok then 1 else 0
    {
      Parities(key, index);
      Member(entries, list.contents, key);
      ghost var v := list.Snap();
      ok := list.RemoveFrom(start, RegularKey(key));
      if !ok {
        TableSame(segments, v, list.Snap(), entries, counter, lost, key);
      } else {
        TableRemoved(segments, v, list.Snap(), entries, counter, lost, key);
        counter := counter - 1;
        entries := entries - {key % TOP};
      }
    }

    /** lookup.  It may initialise a bucket, and changes nothing else. */
    method Lookup(key: nat) returns (ok: bool, value: nat)
      requires Valid() && key < WORD
      modifies this`segments, list
      ensures Valid()
      ensures ok == (Fits(key, TABLE_SIZE) && key % TOP in entries)
      ensures ok ==> value == entries[key % TOP]
    {
      var index := key % TABLE_SIZE;
      var start := StartOf(index);
      Parities(key, index);
      SameRegular(key);
      ok, value := list.FindFrom(start, RegularKey(key));
    }
  }

  /** Buckets after a change to regular nodes with one key. */
  lemma RegularBuckets(s: Segments, heap: map<Addr, Node>, c: seq<Addr>, contents: map<nat, nat>, key: nat,
                       heap': map<Addr, Node>, c': seq<Addr>, contents': map<nat, nat>)
    requires BucketsOk(s, heap, c, contents) && BucketIn(s, 0) != NULL
    requires Keeps(heap, c, heap', c', RegularKey(key))
    requires forall x :: x != RegularKey(key) ==> (x in contents <==> x in contents')
    ensures BucketsOk(s, heap', c', contents')
  {
    forall b: nat | b < MAX_BUCKETS ensures BucketOk(s, heap', c', contents', b) {
      assert BucketOk(s, heap, c, contents, b);
      Parities(key, b);
    }
  }

  lemma TableSame(s: Segments, v: View, v': View, entries: map<nat, nat>, counter: nat, lost: nat, key: nat)
    requires TableOk(s, v, entries, counter, lost) && BucketIn(s, 0) != NULL
    requires Keeps(v.heap, v.chain, v'.heap, v'.chain, RegularKey(key)) && v'.contents == v.contents
    ensures TableOk(s, v', entries, counter, lost)
  {
    RegularBuckets(s, v.heap, v.chain, v.contents, key, v'.heap, v'.chain, v'.contents);
  }

  lemma TableLost(s: Segments, v: View, v': View, entries: map<nat, nat>, counter: nat, lost: nat, key: nat)
    requires TableOk(s, v, entries, counter, lost) && BucketIn(s, 0) != NULL
    requires Keeps(v.heap, v.chain, v'.heap, v'.chain, RegularKey(key)) && v'.contents == v.contents
    ensures TableOk(s, v', entries, counter + 1, lost + 1)
  {
    RegularBuckets(s, v.heap, v.chain, v.contents, key, v'.heap, v'.chain, v'.contents);
  }

  lemma TableInserted(s: Segments, v: View, v': View, entries: map<nat, nat>, counter: nat, lost: nat,
                      key: nat, value: nat)
    requires TableOk(s, v, entries, counter, lost) && BucketIn(s, 0) != NULL && key % TOP !in entries
    requires Keeps(v.heap, v.chain, v'.heap, v'.chain, RegularKey(key))
    requires v'.contents == v.contents[RegularKey(key) := value]
    ensures TableOk(s, v', entries[key % TOP := value], counter + 1, lost)
  {
    RegularBuckets(s, v.heap, v.chain, v.contents, key, v'.heap, v'.chain, v'.contents);
    InsertRepresents(entries, v.contents, key, value);
  }

  lemma TableRemoved(s: Segments, v: View, v': View, entries: map<nat, nat>, counter: nat, lost: nat, key: nat)
    requires TableOk(s, v, entries, counter, lost) && BucketIn(s, 0) != NULL && key % TOP in entries
    requires Keeps(v.heap, v.chain, v'.heap, v'.chain, RegularKey(key))
    requires v'.contents == v.contents - {RegularKey(key)}
    ensures counter > 0 && TableOk(s, v', entries - {key % TOP}, counter - 1, lost)
  {
    RegularBuckets(s, v.heap, v.chain, v.contents, key, v'.heap, v'.chain, v'.contents);
    RemoveRepresents(entries, v.contents, key);
    OneLess(entries, key % TOP);
  }

  lemma DummyAdded(s: Segments, v: View, s': Segments, v': View, entries: map<nat, nat>, counter: nat, lost: nat,
                   index: nat, node: Addr)
    requires TableOk(s, v, entries, counter, lost) && index < MAX_BUCKETS
    requires Keeps(v.heap, v.chain, v'.heap, v'.chain, DummyKey(index))
    requires v'.contents == v.contents[DummyKey(index) := 0]
    requires node != NULL && PointsTo(v'.heap, v'.chain, node, DummyKey(index))
    requires forall g :: g in s' ==> |s'[g]| == SEGMENT_SIZE
    requires forall b: nat :: BucketIn(s', b) == if b == index then node else BucketIn(s, b)
    requires index > 0 ==> v.chain != []
    ensures TableOk(s', v', entries, counter, lost)
  {
    DummyBuckets(s, v.heap, v.chain, v.contents, index, s', v'.heap, v'.chain, v'.contents, node);
    DummyRepresents(entries, v.contents, index);
  }

  /** Buckets after the dummy of `index` was inserted and its bucket set. */
  lemma DummyBuckets(s: Segments, heap: map<Addr, Node>, c: seq<Addr>, contents: map<nat, nat>, index: nat,
                     s': Segments, heap': map<Addr, Node>, c': seq<Addr>, contents': map<nat, nat>, node: Addr)
    requires BucketsOk(s, heap, c, contents) && index < MAX_BUCKETS
    requires Keeps(heap, c, heap', c', DummyKey(index)) && contents' == contents[DummyKey(index) := 0]
    requires node != NULL && PointsTo(heap', c', node, DummyKey(index))
    requires forall g :: g in s' ==> |s'[g]| == SEGMENT_SIZE
    requires forall b: nat :: BucketIn(s', b) == if b == index then node else BucketIn(s, b)
    requires index > 0 ==> c != []
    ensures BucketsOk(s', heap', c', contents')
  {
    forall b: nat | b < MAX_BUCKETS ensures BucketOk(s', heap', c', contents', b) {
      assert BucketOk(s, heap, c, contents, b);
      if b != index && DummyKey(b) == DummyKey(index) { DummyInjective(b, index); }
    }
  }

  /** Regular and dummy keys never coincide. */
  lemma Parities(key: nat, index: nat)
    requires index < TOP
    ensures RegularKey(key) % 2 == 1 && DummyKey(index) % 2 == 0
  {
    RegularIsOdd(key);
    DummyIsEven(index);
  }

  // ----- whole sequences of calls -----

  datatype Call =
    | InsertCall(key: nat, value: nat)
    | RemoveCall(key: nat)
    | LookupCall(key: nat)

  datatype Answer = Done(ok: bool) | Found(value: nat)

  /** What a map with non-overwriting insert answers, and what it becomes. */
  function MapAnswer(m: map<nat, nat>, c: Call): Answer {
    match c
    case InsertCall(k, _) => Done(k !in m)
    case RemoveCall(k) => Done(k in m)
    case LookupCall(k) => if k in m then Found(m[k]) else Done(false)
  }

  function MapAfter(m: map<nat, nat>, c: Call): map<nat, nat> {
    match c
    case InsertCall(k, v) => if k in m then m else m[k := v]
    case RemoveCall(k) => m - {k}
    case LookupCall(_) => m
  }

  function MapRun(m: map<nat, nat>, calls: seq<Call>): map<nat, nat> {
    if calls == [] then m else MapAfter(MapRun(m, calls[..|calls| - 1]), calls[|calls| - 1])
  }

  /** All answers of a map that starts empty. */
  function MapAnswers(calls: seq<Call>): seq<Answer> {
    if calls == [] then [] else
      var before := calls[..|calls| - 1];
      MapAnswers(before) + [MapAnswer(MapRun(map[], before), calls[|calls| - 1])]
  }

  /** The entries of a map that the table can find. */
  function Findable(m: map<nat, nat>): map<nat, nat> {
    map k | k in m && Fits(k, TABLE_SIZE) :: m[k]
  }

  /** Inserts of keys that the table loses. */
  function LostInserts(calls: seq<Call>): nat {
    if calls == [] then 0
    else
      var c := calls[|calls| - 1];
      LostInserts(calls[..|calls| - 1]) + if c.InsertCall? && !Fits(c.key, TABLE_SIZE) then 1 else 0
  }

  /** What the counter of the table reads after these calls. */
  function Load(calls: seq<Call>): nat {
    |Findable(MapRun(map[], calls))| + LostInserts(calls)
  }

  /** The calls never push the counter above the load limit. */
  predicate WithinLoad(calls: seq<Call>) {
    forall i :: 0 <= i <= |calls| ==> Load(calls[..i]) / TABLE_SIZE <= MAX_LOAD
  }

  lemma FindableAfter(m: map<nat, nat>, c: Call)
    ensures Findable(MapAfter(m, c)) == if Fits(c.key, TABLE_SIZE) then MapAfter(Findable(m), c) else Findable(m)
  {
  }

  lemma OneMoreAnswer(calls: seq<Call>, i: nat)
    requires i < |calls|
    ensures MapAnswers(calls[..i + 1]) == MapAnswers(calls[..i]) + [MapAnswer(MapRun(map[], calls[..i]), calls[i])]
  {
    assert calls[..i + 1][..i] == calls[..i];
  }

  lemma OneMore(calls: seq<Call>, i: nat)
    requires i < |calls| && WithinLoad(calls)
    ensures MapRun(map[], calls[..i + 1]) == MapAfter(MapRun(map[], calls[..i]), calls[i])
    ensures LostInserts(calls[..i + 1])
         == LostInserts(calls[..i]) + if calls[i].InsertCall? && !Fits(calls[i].key, TABLE_SIZE) then 1 else 0
    ensures LoadAfter(MapRun(map[], calls[..i]), LostInserts(calls[..i]), calls[i]) / TABLE_SIZE <= MAX_LOAD
  {
    assert calls[..i + 1][..i] == calls[..i];
    assert Load(calls[..i + 1]) / TABLE_SIZE <= MAX_LOAD;
  }

  /** Inserting without reaching the load limit. */
  method PerformInsert(t: Table, key: nat, value: nat) returns (a: Answer)
    requires t.Valid() && key < TOP && t.bucketsSize == TABLE_SIZE
    requires !Fits(key, TABLE_SIZE) || key !in t.entries ==> (t.counter + 1) / TABLE_SIZE <= MAX_LOAD
    modifies t, t.list
    ensures t.Valid() && t.bucketsSize == TABLE_SIZE && a == Done(!Fits(key, TABLE_SIZE) || key !in old(t.entries))
    ensures t.entries ==
      if Fits(key, TABLE_SIZE) then MapAfter(old(t.entries), InsertCall(key, value)) else old(t.entries)
    ensures t.lost == old(t.lost) + if Fits(key, TABLE_SIZE) then 0 else 1
  {
    ModSmall(key, TOP);
    var ok := t.Insert(key, value);
    a := Done(ok);
  }

  method PerformRemove(t: Table, key: nat) returns (a: Answer)
    requires t.Valid() && key < TOP
    modifies t, t.list
    ensures t.Valid() && t.bucketsSize == old(t.bucketsSize) && t.lost == old(t.lost)
    ensures a == Done(Fits(key, TABLE_SIZE) && key in old(t.entries))
    ensures t.entries == if Fits(key, TABLE_SIZE) then MapAfter(old(t.entries), RemoveCall(key)) else old(t.entries)
  {
    ModSmall(key, TOP);
    var ok := t.Remove(key);
    a := Done(ok);
  }

  method PerformLookup(t: Table, key: nat) returns (a: Answer)
    requires t.Valid() && key < TOP
    modifies t, t.list
    ensures t.Valid() && t.bucketsSize == old(t.bucketsSize) && t.lost == old(t.lost) && t.entries == old(t.entries)
    ensures a == if Fits(key, TABLE_SIZE) && key in t.entries then Found(t.entries[key]) else Done(false)
  {
    ModSmall(key, TOP);
    var ok, v := t.Lookup(key);
    a := if ok then Found(v) else Done(false);
  }

  /** What the counter reads after one more call. */
  function LoadAfter(m: map<nat, nat>, lost: nat, c: Call): nat {
    |Findable(MapAfter(m, c))| + lost + if c.InsertCall? && !Fits(c.key, TABLE_SIZE) then 1 else 0
  }

  /** One call on a table that holds what can be found of the map `m`: it answers as
      the map does if and only if the key fits, or is not in the map. */
  method Perform(t: Table, c: Call, ghost m: map<nat, nat>) returns (a: Answer)
    requires t.Valid() && c.key < TOP && t.bucketsSize == TABLE_SIZE && t.entries == Findable(m)
    requires LoadAfter(m, t.lost, c) / TABLE_SIZE <= MAX_LOAD
    modifies t, t.list
    ensures t.Valid() && t.bucketsSize == TABLE_SIZE && t.entries == Findable(MapAfter(m, c))
    ensures t.lost == old(t.lost) + if c.InsertCall? && !Fits(c.key, TABLE_SIZE) then 1 else 0
    ensures a == MapAnswer(m, c) <==> Fits(c.key, TABLE_SIZE) || c.key !in m
  {
    FindableAfter(m, c);
    match c
    case InsertCall(k, v) => a := PerformInsert(t, k, v);
    case RemoveCall(k) => a := PerformRemove(t, k);
    case LookupCall(k) => a := PerformLookup(t, k);
  }

  /** Call `i` is on a key that fits, or that is not in the map at that point. */
  predicate FitsOrAbsent(calls: seq<Call>, i: nat)
    requires i < |calls|
  {
    Fits(calls[i].key, TABLE_SIZE) || calls[i].key !in MapRun(map[], calls[..i])
  }

  /** The answers agree with those of the map exactly where `FitsOrAbsent` says. */
  ghost predicate AgreeWhereFit(answers: seq<Answer>, calls: seq<Call>, n: nat)
    requires n <= |calls|
  {
    && |answers| == |MapAnswers(calls[..n])| == n
    && forall i {:trigger FitsOrAbsent(calls, i)} :: 0 <= i < n ==>
         (answers[i] == MapAnswers(calls[..n])[i] <==> FitsOrAbsent(calls, i))
  }

  lemma AgreeMore(answers: seq<Answer>, a: Answer, calls: seq<Call>, n: nat)
    requires n < |calls| && AgreeWhereFit(answers, calls, n)
    requires a == MapAnswer(MapRun(map[], calls[..n]), calls[n]) <==> FitsOrAbsent(calls, n)
    ensures AgreeWhereFit(answers + [a], calls, n + 1)
  {
    OneMoreAnswer(calls, n);
  }

  lemma AgreeOnAll(answers: seq<Answer>, calls: seq<Call>)
    requires AgreeWhereFit(answers, calls, |calls|)
    ensures answers == MapAnswers(calls) <==> forall i :: 0 <= i < |calls| ==> FitsOrAbsent(calls, i)
  {
    assert calls[..|calls|] == calls;
    if forall i :: 0 <= i < |calls| ==> FitsOrAbsent(calls, i) {
      forall i | 0 <= i < |calls| ensures answers[i] == MapAnswers(calls)[i] { assert FitsOrAbsent(calls, i); }
    }
  }

  /** The calls, one after the other, on a new table. */
  method PerformAll(t: Table, calls: seq<Call>) returns (answers: seq<Answer>)
    requires WithinLoad(calls) && forall i :: 0 <= i < |calls| ==> calls[i].key < TOP
    requires t.Valid() && t.bucketsSize == TABLE_SIZE && t.lost == 0 && t.entries == map[]
    modifies t, t.list
    ensures t.Valid() && t.bucketsSize == TABLE_SIZE && t.lost == LostInserts(calls)
    ensures t.entries == Findable(MapRun(map[], calls)) && AgreeWhereFit(answers, calls, |calls|)
  {
    answers := [];
    for i := 0 to |calls|
      invariant t.Valid() && t.bucketsSize == TABLE_SIZE && t.lost == LostInserts(calls[..i])
      invariant t.entries == Findable(MapRun(map[], calls[..i]))
      invariant AgreeWhereFit(answers, calls, i)
    {
      OneMore(calls, i);
      var a := Perform(t, calls[i], MapRun(map[], calls[..i]));
      AgreeMore(answers, a, calls, i);
      answers := answers + [a];
    }
    assert calls[..|calls|] == calls;
  }

  /** For every sequence of calls on keys below 2^31 that stays within the load limit,
      a new table gives the answer of the map to exactly those calls whose key fits or
      is not in the map; so all its answers are those of the map if and only if all
      calls are of that kind.  Its counter ends as the number of entries that can be
      found plus the number of inserts that were lost, and it never grows. */
  method ReplayAny(calls: seq<Call>) returns (answers: seq<Answer>, count: nat, buckets: nat)
    requires WithinLoad(calls) && forall i :: 0 <= i < |calls| ==> calls[i].key < TOP
    ensures AgreeWhereFit(answers, calls, |calls|)
    ensures answers == MapAnswers(calls) <==> forall i :: 0 <= i < |calls| ==> FitsOrAbsent(calls, i)
    ensures count == Load(calls) && buckets == TABLE_SIZE
  {
    var t := new Table();
    answers := PerformAll(t, calls);
    count, buckets := t.counter, t.bucketsSize;
    AgreeOnAll(answers, calls);
  }

  // ----- sequences within the load limit -----

  lemma {:induction false} FewKeys(keys: set<nat>, n: nat)
    requires forall k :: k in keys ==> k < n
    ensures |keys| <= n
  {
    if n == 0 {
      assert keys == {};
    } else {
      FewKeys(keys - {n - 1}, n - 1);
      assert keys <= (keys - {n - 1}) + {n - 1};
      if n - 1 in keys { assert |keys| == |keys - {n - 1}| + 1; } else { assert keys - {n - 1} == keys; }
    }
  }

  /** With keys below the bucket count nothing is lost, and there are few entries. */
  lemma {:induction false} KeysStaySmall(calls: seq<Call>)
    requires forall i :: 0 <= i < |calls| ==> calls[i].key < TABLE_SIZE
    ensures forall k :: k in MapRun(map[], calls) ==> k < TABLE_SIZE
    ensures LostInserts(calls) == 0 && Findable(MapRun(map[], calls)) == MapRun(map[], calls)
    ensures Load(calls) == |MapRun(map[], calls)| <= TABLE_SIZE
  {
    if calls != [] {
      KeysStaySmall(calls[..|calls| - 1]);
      SmallKeysFit(calls[|calls| - 1].key, TABLE_SIZE);
    }
    var m := MapRun(map[], calls);
    forall k | k in m ensures Fits(k, TABLE_SIZE) { SmallKeysFit(k, TABLE_SIZE); }
    FewKeys(m.Keys, TABLE_SIZE);
  }

  function Inserts(calls: seq<Call>): nat {
    if calls == [] then 0
    else Inserts(calls[..|calls| - 1]) + if calls[|calls| - 1].InsertCall? then 1 else 0
  }

  /** Each call adds at most one to the load, and only if it is an insert. */
  lemma {:induction false} LoadIsFewInserts(calls: seq<Call>)
    ensures Load(calls) <= Inserts(calls)
  {
    if calls != [] {
      var n := |calls| - 1;
      LoadIsFewInserts(calls[..n]);
      LoadGrows(MapRun(map[], calls[..n]), calls[n]);
    }
  }

  lemma LoadGrows(m: map<nat, nat>, c: Call)
    ensures |Findable(MapAfter(m, c))|
         <= |Findable(m)| + if c.InsertCall? && Fits(c.key, TABLE_SIZE) then 1 else 0
  {
    FindableAfter(m, c);
    var f := Findable(m);
    match c
    case InsertCall(k, v) => AtMostOneMore(f, k, v);
    case RemoveCall(k) => NoMore(f, k);
    case LookupCall(_) =>
  }

  lemma AtMostOneMore(f: map<nat, nat>, k: nat, v: nat)
    ensures |f[k := v]| <= |f| + 1
  {
    assert f[k := v].Keys == f.Keys + {k};
  }

  lemma NoMore(f: map<nat, nat>, k: nat)
    ensures |f - {k}| <= |f|
  {
    if k in f { OneLess(f, k); } else { assert f - {k} == f; }
  }

  /** Fewer inserts than the load limit keep within it, whatever the keys. */
  lemma FewInsertsWithinLoad(calls: seq<Call>)
    requires Inserts(calls) < (MAX_LOAD + 1) * TABLE_SIZE
    ensures WithinLoad(calls)
  {
    forall i | 0 <= i <= |calls| ensures Load(calls[..i]) / TABLE_SIZE <= MAX_LOAD {
      InsertsOfPrefix(calls, i);
      LoadIsFewInserts(calls[..i]);
    }
  }

  lemma {:induction false} InsertsOfPrefix(calls: seq<Call>, i: nat)
    requires i <= |calls|
    ensures Inserts(calls[..i]) <= Inserts(calls)
  {
    if i < |calls| {
      var n := |calls| - 1;
      InsertsOfPrefix(calls[..n], i);
      assert calls[..n][..i] == calls[..i];
    } else {
      assert calls[..i] == calls;
    }
  }

  /** For every sequence of calls on keys below the bucket count, however long, a new
      table answers exactly as a map does, its counter ends as the size of that map,
      and it never grows. */
  method Replay(calls: seq<Call>) returns (answers: seq<Answer>, count: nat, buckets: nat)
    requires forall i :: 0 <= i < |calls| ==> calls[i].key < TABLE_SIZE
    ensures answers == MapAnswers(calls)
    ensures count == |MapRun(map[], calls)| && buckets == TABLE_SIZE
  {
    forall i | 0 <= i <= |calls| ensures Load(calls[..i]) / TABLE_SIZE <= MAX_LOAD { KeysStaySmall(calls[..i]); }
    forall i | 0 <= i < |calls| ensures FitsOrAbsent(calls, i) { SmallKeysFit(calls[i].key, TABLE_SIZE); }
    KeysStaySmall(calls);
    answers, count, buckets := ReplayAny(calls);
  }
}
