/**
 A byte stream cut into chunks, as a value: what the positions of a Buffer mean
 when its chunks hold the byte sequences `p`.
 */
module Chunks {
  import opened Bytes

  const BLOCK: nat := 4096

  datatype Position = Position(idx: nat, off: nat)

  ghost function Sum(sizes: seq<nat>): nat {
    if sizes == [] then 0 else sizes[0] + Sum(sizes[1..])
  }

  ghost predicate Within(p: seq<seq<char>>, r: Position) {
    r.idx < |p| && r.off <= |p[r.idx]|
  }

  /** The bytes from position `r` on. */
  ghost function From(p: seq<seq<char>>, r: Position): seq<char>
    requires Within(p, r)
    decreases r.idx
  {
    if r.idx == 0 then p[0][r.off..] + Flat(p[1..]) else From(p[1..], Position(r.idx - 1, r.off))
  }

  lemma {:induction false} FromIs(p: seq<seq<char>>, r: Position)
    requires Within(p, r)
    ensures From(p, r) == p[r.idx][r.off..] + Flat(p[r.idx + 1..])
    decreases r.idx
  {
    if r.idx > 0 {
      FromIs(p[1..], Position(r.idx - 1, r.off));
      assert p[1..][r.idx..] == p[r.idx + 1..];
    }
  }

  ghost function End(p: seq<seq<char>>): Position
    requires p != []
  {
    Position(|p| - 1, |p[|p| - 1]|)
  }

  /** A reader at `r` finds its next byte in the chunk it is in. */
  ghost predicate ReadableAt(p: seq<seq<char>>, r: Position)
    requires Within(p, r)
  {
    r.idx + 1 < |p| ==> r.off < |p[r.idx]|
  }

  /** Only the last chunk at or behind `r` may be empty. */
  ghost predicate NoHoles(p: seq<seq<char>>, r: Position) {
    forall i :: r.idx <= i < |p| - 1 ==> p[i] != []
  }

  /** `p` with `bs` added to its last chunk. */
  ghost function Grown(p: seq<seq<char>>, bs: seq<char>): seq<seq<char>>
    requires p != []
  {
    p[|p| - 1 := p[|p| - 1] + bs]
  }

  lemma {:induction false} FromConcat(p: seq<seq<char>>, q: seq<seq<char>>, r: Position)
    requires Within(p, r)
    ensures Within(p + q, r) && From(p + q, r) == From(p, r) + Flat(q)
    decreases r.idx
  {
    assert (p + q)[1..] == p[1..] + q;
    if r.idx == 0 {
      FlatConcat(p[1..], q);
    } else {
      FromConcat(p[1..], q, Position(r.idx - 1, r.off));
    }
  }

  /** A new empty chunk holds no bytes. */
  lemma FromExtend(p: seq<seq<char>>, r: Position)
    requires Within(p, r)
    ensures Within(p + [[]], r) && From(p + [[]], r) == From(p, r)
    ensures End(p + [[]]) == Position(|p|, 0)
    ensures NoHoles(p, r) && End(p).off > 0 ==> NoHoles(p + [[]], r)
  {
    FromConcat(p, [[]], r);
    FlatOne([]);
  }

  lemma FromGrown(p: seq<seq<char>>, r: Position, bs: seq<char>)
    requires Within(p, r)
    ensures Within(Grown(p, bs), r) && From(Grown(p, bs), r) == From(p, r) + bs
  {
    var n := |p| - 1;
    if r.idx == n {
      FromLast(p, r);
      FromLast(Grown(p, bs), r);
    } else {
      GrownBefore(p[..n], p[n], r, bs);
      assert p == p[..n] + [p[n]] && Grown(p, bs) == p[..n] + [p[n] + bs];
    }
  }

  lemma GrownBefore(a: seq<seq<char>>, z: seq<char>, r: Position, bs: seq<char>)
    requires Within(a, r)
    ensures Within(a + [z + bs], r) && Within(a + [z], r) && From(a + [z + bs], r) == From(a + [z], r) + bs
  {
    FromConcat(a, [z], r);
    FromConcat(a, [z + bs], r);
    FlatOne(z);
    FlatOne(z + bs);
  }

  /** Dropping chunks in front shifts positions and keeps what they mean. */
  lemma FromDrop(p: seq<seq<char>>, r: Position, n: nat)
    requires Within(p, r) && n <= r.idx
    ensures Within(p[n..], Position(r.idx - n, r.off)) && From(p[n..], Position(r.idx - n, r.off)) == From(p, r)
    ensures End(p[n..]) == Position(|p| - n - 1, End(p).off)
    ensures ReadableAt(p[n..], Position(r.idx - n, r.off)) == ReadableAt(p, r)
    ensures NoHoles(p, r) ==> NoHoles(p[n..], Position(r.idx - n, r.off))
  {
    FromIs(p, r);
    FromIs(p[n..], Position(r.idx - n, r.off));
    assert p[n..][r.idx - n + 1..] == p[r.idx + 1..];
  }

  lemma FromSkip(p: seq<seq<char>>, r: Position, k: nat)
    requires Within(p, r) && r.off + k <= |p[r.idx]|
    ensures Within(p, r.(off := r.off + k)) && k <= |From(p, r)|
    ensures From(p, r.(off := r.off + k)) == From(p, r)[k..]
  {
    FromIs(p, r);
    FromIs(p, r.(off := r.off + k));
  }

  /** The end of a chunk and the start of the next one mean the same. */
  lemma FromNextChunk(p: seq<seq<char>>, r: Position)
    requires Within(p, r) && r.off == |p[r.idx]| && r.idx + 1 < |p|
    ensures Within(p, Position(r.idx + 1, 0)) && From(p, Position(r.idx + 1, 0)) == From(p, r)
  {
    FromIs(p, r);
    FromIs(p, Position(r.idx + 1, 0));
    assert p[r.idx + 1..][0] == p[r.idx + 1];
    assert p[r.idx + 1..][1..] == p[r.idx + 2..];
  }

  lemma FromLast(p: seq<seq<char>>, r: Position)
    requires Within(p, r) && r.idx == |p| - 1
    ensures From(p, r) == p[r.idx][r.off..]
  {
    FromIs(p, r);
    assert p[r.idx + 1..] == [];
  }

  /** Moving a drained reader behind a new empty chunk. */
  lemma SkipToEnd(p: seq<seq<char>>, r: Position)
    requires |p| > 1 && r == Position(|p| - 2, |p[|p| - 2]|) && p[|p| - 1] == []
    ensures From(p, r) == From(p, End(p)) == []
  {
    FromNextChunk(p, r);
    FromLast(p, End(p));
  }

  lemma FromStart(p: seq<seq<char>>)
    requires p != []
    ensures From(p, Position(0, 0)) == Flat(p)
  {
  }

  /** A readable position has no byte left only at the very end. */
  lemma EmptyAtEnd(p: seq<seq<char>>, r: Position)
    requires Within(p, r) && ReadableAt(p, r)
    ensures From(p, r) == [] <==> r == End(p)
    ensures r.off < |p[r.idx]| ==> From(p, r) != [] && From(p, r)[0] == p[r.idx][r.off]
    ensures r.off == |p[r.idx]| ==> r == End(p)
  {
    FromIs(p, r);
    if r.idx == |p| - 1 { FromLast(p, r); }
  }

  lemma {:induction false} SumSplit(a: seq<nat>, b: seq<nat>)
    ensures Sum(a + b) == Sum(a) + Sum(b)
  {
    if a == [] {
      assert a + b == b;
    } else {
      SumSplit(a[1..], b);
      assert (a + b)[1..] == a[1..] + b;
    }
  }

  /** A sum is at least its last part. */
  lemma SumAtLeastLast(a: seq<nat>)
    requires a != []
    ensures Sum(a) >= a[|a| - 1]
  {
    var n := |a| - 1;
    assert a == a[..n] + [a[n]];
    SumSplit(a[..n], [a[n]]);
  }

  lemma {:induction false} FlatLength(p: seq<seq<char>>, sizes: seq<nat>)
    requires |sizes| == |p| && forall i :: 0 <= i < |p| ==> sizes[i] == |p[i]|
    ensures |Flat(p)| == Sum(sizes)
  {
    if p != [] { FlatLength(p[1..], sizes[1..]); }
  }

  /** The bytes behind a position, counted chunk by chunk. */
  lemma FromLength(p: seq<seq<char>>, r: Position, sizes: seq<nat>)
    requires Within(p, r) && |sizes| == |p| && forall i :: 0 <= i < |p| ==> sizes[i] == |p[i]|
    ensures |From(p, r)| + Sum(sizes[1..r.idx + 1]) == sizes[r.idx] - r.off + Sum(sizes[1..])
  {
    FromIs(p, r);
    assert sizes[1..] == sizes[1..r.idx + 1] + sizes[r.idx + 1..];
    SumSplit(sizes[1..r.idx + 1], sizes[r.idx + 1..]);
    FlatLength(p[r.idx + 1..], sizes[r.idx + 1..]);
  }

  // ----- moving all chunks of one stream behind another -----

  ghost function Trimmed(p: seq<seq<char>>): seq<seq<char>> {
    if p != [] && p[|p| - 1] == [] then p[..|p| - 1] else p
  }

  ghost function Closed(p: seq<seq<char>>): seq<seq<char>> {
    if p != [] && |p[|p| - 1]| == BLOCK then p + [[]] else p
  }

  ghost function Joined(p: seq<seq<char>>, q: seq<seq<char>>): seq<seq<char>> {
    Closed(Trimmed(p) + Trimmed(q))
  }

  /** Where a reader at `r` continues once its chunk has no byte left. */
  ghost function Moved(p: seq<seq<char>>, r: Position): Position
    requires Within(p, r)
  {
    if r.off == |p[r.idx]| then Position(r.idx + 1, 0) else r
  }

  lemma FlatTrimmed(p: seq<seq<char>>)
    ensures Flat(Trimmed(p)) == Flat(p)
  {
    if p != [] && p[|p| - 1] == [] {
      assert p == Trimmed(p) + [[]];
      FlatConcat(Trimmed(p), [[]]);
      FlatOne([]);
    }
  }

  lemma FlatClosed(p: seq<seq<char>>)
    ensures Flat(Closed(p)) == Flat(p)
  {
    FlatConcat(p, [[]]);
    FlatOne([]);
  }

  lemma JoinedIs(p: seq<seq<char>>, q: seq<seq<char>>)
    requires q != [] && q[0] != []
    ensures Trimmed(q) != [] && Trimmed(q)[0] == q[0]
    ensures Joined(p, q) == Trimmed(p) + Closed(Trimmed(q)) && Flat(Closed(Trimmed(q))) == Flat(q)
  {
    var a, b := Trimmed(p), Trimmed(q);
    FlatTrimmed(q);
    FlatClosed(b);
    assert (a + b)[|a + b| - 1] == b[|b| - 1];
    assert a + b + [[]] == a + (b + [[]]);
  }

  /** A reader inside `a` sees the bytes of `b` next. */
  lemma BytesBefore(p: seq<seq<char>>, r: Position, b: seq<seq<char>>)
    requires Within(p, r) && r.idx < |Trimmed(p)|
    ensures Within(Trimmed(p) + b, r) && From(Trimmed(p) + b, r) == From(p, r) + Flat(b)
  {
    FromConcat(Trimmed(p), b, r);
    if p[|p| - 1] == [] {
      assert p == Trimmed(p) + [[]];
      FromExtend(Trimmed(p), r);
    }
  }

  /** A reader in the empty chunk that was removed sees the bytes of `b`. */
  lemma BytesBehind(p: seq<seq<char>>, r: Position, b: seq<seq<char>>)
    requires Within(p, r) && r.idx >= |Trimmed(p)| && b != []
    ensures Within(Trimmed(p) + b, r) && From(Trimmed(p) + b, r) == From(p, r) + Flat(b)
  {
    var a := Trimmed(p);
    FromLast(p, r);
    assert (a + b)[|a|..] == b;
    FromDrop(a + b, r, |a|);
    FromStart(b);
  }

  /** The reader sees its own bytes, then those of the other stream. */
  lemma JoinedBytes(p: seq<seq<char>>, r: Position, q: seq<seq<char>>)
    requires Within(p, r) && q != [] && q[0] != []
    ensures Within(Joined(p, q), r) && From(Joined(p, q), r) == From(p, r) + Flat(q)
  {
    JoinedIs(p, q);
    if r.idx < |Trimmed(p)| {
      BytesBefore(p, r, Closed(Trimmed(q)));
    } else {
      BytesBehind(p, r, Closed(Trimmed(q)));
    }
  }

  /** The joined chunks keep the reader's next byte where it looks for it. */
  lemma JoinedShape(p: seq<seq<char>>, r: Position, q: seq<seq<char>>)
    requires Within(p, r) && NoHoles(p, r) && NoHoles(q, Position(0, 0)) && q != [] && q[0] != []
    ensures Within(Joined(p, q), r) && NoHoles(Joined(p, q), r) && Trimmed(q) != []
  {
    var a, b := Trimmed(p), Trimmed(q);
    assert b[0] == q[0];
    forall i | r.idx <= i < |a| ensures a[i] != [] {}
    forall i | 0 <= i < |b| ensures b[i] != [] {}
  }

  /** The reader moves on exactly if it was done with a chunk that had bytes. */
  lemma JoinedMove(p: seq<seq<char>>, r: Position, q: seq<seq<char>>)
    requires Within(p, r) && NoHoles(p, r) && Within(Joined(p, q), r) && q != [] && q[0] != []
    ensures Moved(Joined(p, q), r) == if 0 < r.off == |p[r.idx]| then Position(r.idx + 1, 0) else r
  {
    JoinedIs(p, q);
    if r.idx < |Trimmed(p)| {
      assert Joined(p, q)[r.idx] == p[r.idx];
    } else {
      assert Joined(p, q)[r.idx] == Closed(Trimmed(q))[0] == q[0];
    }
  }

  lemma MovedReads(p: seq<seq<char>>, r: Position)
    requires Within(p, r) && NoHoles(p, r) && From(p, r) != []
    ensures Within(p, Moved(p, r)) && From(p, Moved(p, r)) == From(p, r)
    ensures NoHoles(p, Moved(p, r)) && ReadableAt(p, Moved(p, r))
  {
    if r.off == |p[r.idx]| {
      if r.idx == |p| - 1 { FromLast(p, r); }
      FromNextChunk(p, r);
    }
  }
}
