/**
 The chunked streaming buffer of buffer.hpp and buffer.cpp.

 `Unread()` is the flat sequence of bytes that were written and not consumed.
 A buffer may be in a state in which its read position is stuck at the end of a
 drained chunk although bytes follow in the next one; `Readable()` excludes it,
 and every operation says exactly when it is kept.
 */
module Buffers {
  import opened Bytes
  import opened Chunks

  class Buffer {
    var chunks: seq<array<char>>
    var sizes: seq<nat>
    var wpos: Position
    var rpos: Position
    ghost var pieces: seq<seq<char>> // what the filled parts of the chunks hold

    ghost predicate Valid()
      reads this, chunks
    {
      && Stored()
      && InOrder()
    }

    /** The chunks hold the pieces, wherever the positions are. */
    ghost predicate Stored()
      reads this, chunks
    {
      Owned(chunks) && Fills(chunks, sizes, pieces) && SizesOf(sizes, pieces)
    }

    /** The sizes and the positions fit the pieces. */
    ghost predicate InOrder()
      reads this
    {
      && SizesOf(sizes, pieces)
      && pieces != [] && wpos == End(pieces)
      && Within(pieces, rpos)
      && NoHoles(pieces, rpos)
    }

    /** The bytes that can still be read, in order. */
    ghost function Unread(): seq<char>
      requires Within(pieces, rpos)
      reads this
    {
      From(pieces, rpos)
    }

    ghost predicate Readable()
      requires Within(pieces, rpos)
      reads this
    {
      ReadableAt(pieces, rpos)
    }

    /** All chunks are the ones from before or new ones. */
    twostate predicate Kept()
      reads this
    {
      forall i :: 0 <= i < |chunks| ==> chunks[i] in old(chunks) || fresh(chunks[i])
    }

    function WriteSize(): (n: nat)
      requires Valid()
      reads this, chunks
      ensures n == BLOCK - sizes[|sizes| - 1]
    {
      BLOCK - wpos.off
    }

    /** A readable buffer has nothing in its read area only when it is empty. */
    function ReadSize(): (n: nat)
      requires Valid()
      reads this, chunks
      ensures rpos.off + n <= BLOCK
      ensures n <= |Unread()| && chunks[rpos.idx][rpos.off..rpos.off + n] == Unread()[..n]
      ensures Readable() ==> (n == 0 <==> Unread() == [])
    {
      EmptyIsEnd();
      assert FilledAt(chunks, sizes, pieces, rpos.idx);
      FromIs(pieces, rpos);
      sizes[rpos.idx] - rpos.off
    }

    lemma EmptyIsEnd()
      requires Valid()
      ensures Readable() ==> (Unread() == [] <==> rpos == wpos)
    {
      if Readable() { EmptyAtEnd(pieces, rpos); }
    }

    constructor ()
      ensures Valid() && Readable() && Unread() == [] && rpos == wpos == Position(0, 0) && sizes == [0]
      ensures forall i :: 0 <= i < |chunks| ==> fresh(chunks[i])
    {
      var chunk := new char[BLOCK];
      chunks, sizes, pieces := [chunk], [0], [[]];
      wpos, rpos := Position(0, 0), Position(0, 0);
      new;
      FromLast(pieces, rpos);
    }

    /** addChunk, and the write position at its start. */
    method AddChunk()
      requires Valid() && wpos.off > 0
      modifies this`chunks, this`sizes, this`pieces, this`wpos
      ensures Valid() && |chunks| == |old(chunks)| + 1
      ensures chunks[..|chunks| - 1] == old(chunks) && fresh(chunks[|chunks| - 1])
      ensures pieces == old(pieces) + [[]] && Unread() == old(Unread())
      ensures wpos == Position(|pieces| - 1, 0)
    {
      var chunk := new char[BLOCK];
      FromExtend(pieces, rpos);
      FillsExtend(chunks, sizes, pieces, chunk);
      OwnedExtend(chunks, chunk);
      chunks, sizes, pieces := chunks + [chunk], sizes + [0], pieces + [[]];
      wpos := Position(|chunks| - 1, 0);
    }

    /** dropChunks: always takes the chunks at the front. */
    method DropChunks(n: nat)
      requires Valid() && n <= rpos.idx
      modifies this
      ensures Valid() && Kept() && chunks == old(chunks)[n..]
      ensures chunks[|chunks| - 1] == old(chunks[|chunks| - 1]) && wpos.off == old(wpos.off)
      ensures Unread() == old(Unread()) && Readable() == old(Readable())
      ensures rpos == Position(old(rpos.idx) - n, old(rpos.off)) && pieces == old(pieces)[n..]
    {
      if n == 0 { return; }
      FromDrop(pieces, rpos, n);
      FillsDrop(chunks, sizes, pieces, n);
      OwnedDrop(chunks, n);
      wpos := wpos.(idx := wpos.idx - n);
      rpos := rpos.(idx := rpos.idx - n);
      pieces := pieces[n..];
      PopFront(n);
    }

    method PopFront(n: nat)
      requires n <= |chunks| == |sizes|
      modifies this`chunks, this`sizes
      ensures chunks == old(chunks)[n..] && sizes == old(sizes)[n..]
    {
      for k := 0 to n
        invariant chunks == old(chunks)[k..] && sizes == old(sizes)[k..]
      {
        chunks, sizes := chunks[1..], sizes[1..];
      }
    }

    /** What the producer finds in the write area. */
    ghost function WriteArea(n: nat): seq<char>
      requires Valid() && n <= WriteSize()
      reads this, chunks
    {
      chunks[wpos.idx][wpos.off..wpos.off + n]
    }

    /** A producer stores bytes in the write area, in front of an advance. */
    method Store(bs: seq<char>)
      requires Valid() && |bs| <= WriteSize()
      modifies chunks[wpos.idx]
      ensures Valid() && WriteArea(|bs|) == bs
    {
      LastApart(chunks);
      var dest := chunks[wpos.idx];
      var off := wpos.off;
      for i := 0 to |bs|
        invariant dest[..off] == old(dest[..off])
        invariant dest[off..off + i] == bs[..i]
      {
        dest[off + i] := bs[i];
      }
      forall i | 0 <= i < |chunks| ensures FilledAt(chunks, sizes, pieces, i) {
        assert old(FilledAt(chunks, sizes, pieces, i));
      }
    }

    /** The stored bytes become part of the stream. */
    method Bump(n: nat)
      requires Valid() && n <= WriteSize()
      modifies this`sizes, this`pieces, this`wpos
      ensures Valid() && pieces == Grown(old(pieces), old(WriteArea(n)))
      ensures Unread() == old(Unread()) + old(WriteArea(n))
      ensures Readable() == old(Readable()) && WriteSize() == old(WriteSize()) - n
    {
      ghost var bs := WriteArea(n);
      FromGrown(pieces, rpos, bs);
      FillsGrown(chunks, sizes, pieces, bs);
      sizes := sizes[wpos.idx := sizes[wpos.idx] + n];
      wpos := wpos.(off := wpos.off + n);
      pieces := Grown(pieces, bs);
    }

    /** advance. */
    method Advance(n: nat) returns (ok: bool)
      requires Valid()
      modifies this`sizes, this`pieces, this`wpos
      ensures Valid() && ok == (0 < n <= old(WriteSize()))
      ensures Unread() == if ok then old(Unread()) + old(WriteArea(n)) else old(Unread())
      ensures Readable() == old(Readable())
      ensures WriteSize() == if ok then old(WriteSize()) - n else old(WriteSize())
    {
      ok := 0 < n <= WriteSize();
      if ok { Bump(n); }
    }

    /** reserve: makes room, and changes nothing that a reader could see. */
    method Reserve(n: nat) returns (ok: bool)
      requires Valid()
      modifies this
      ensures Valid() && Kept() && ok == (n <= BLOCK) && rpos.idx == old(rpos.idx)
      ensures Unread() == old(Unread()) && Readable() == old(Readable())
      ensures WriteSize() == if ok && old(WriteSize()) < n then BLOCK else old(WriteSize())
      ensures old(rpos != wpos || WriteSize() >= n) ==> rpos == old(rpos)
    {
      if n > BLOCK { return false; }
      if BLOCK - wpos.off >= n { return true; }
      var drained := rpos == wpos;
      AddChunk();
      if drained { SkipDrained(); }
      return true;
    }

    /** Moves a reader that is done with its chunk to the new one. */
    method SkipDrained()
      requires Valid() && |pieces| > 1 && rpos == Position(|pieces| - 2, |pieces[|pieces| - 2]|)
      requires pieces[|pieces| - 1] == []
      modifies this
      ensures Valid() && Readable() && Unread() == old(Unread()) && wpos.off == 0
      ensures chunks == old(chunks)[1..] && rpos.idx == old(rpos.idx)
    {
      SkipToEnd(pieces, rpos);
      rpos := wpos;
      DropChunks(1);
    }

    /** write: appends any number of bytes.  It leaves the buffer unreadable when
        the last chunk was full and fully consumed and no reserve came first. */
    method Write(data: seq<char>)
      requires Valid()
      modifies this, chunks
      ensures Valid() && Kept()
      ensures Unread() == old(Unread()) + data
      ensures Readable() == (old(Readable()) && (data == [] || !old(rpos == wpos && wpos.off == BLOCK)))
      ensures rpos == old(rpos) && (if data == [] then wpos == old(wpos) else wpos.off < BLOCK)
    {
      var left, src := |data|, 0;
      ghost var unread, readable, started := Unread(), Readable(), false;
      ghost var stuck := rpos == wpos && wpos.off == BLOCK;
      while left > 0
        invariant 0 <= src && 0 <= left && src + left == |data|
        invariant Valid() && Kept() && rpos == old(rpos)
        invariant Unread() == unread + data[..src]
        invariant if !started then left == |data| && wpos == old(wpos) && Readable() == readable
                  else data != [] && Readable() == (readable && !stuck) && wpos.off < BLOCK
        decreases left, wpos.off
      {
        var n := if BLOCK - wpos.off < left then BLOCK - wpos.off else left;
        left := left - n;
        WriteSome(data[src..src + n], left > 0);
        OneMoreSlice(unread, data, src, n);
        src, started := src + n, true;
      }
      assert data[..src] == data;
    }

    /** One round of the loop of write. */
    method WriteSome(bs: seq<char>, more: bool)
      requires Valid() && wpos.off + |bs| <= BLOCK && (more ==> wpos.off + |bs| == BLOCK) && (bs == [] ==> more)
      modifies this`chunks, this`sizes, this`pieces, this`wpos, chunks[wpos.idx]
      ensures Valid() && Kept() && Unread() == old(Unread()) + bs
      ensures Readable() == (old(Readable()) && !old(rpos == wpos && wpos.off == BLOCK))
      ensures wpos != old(wpos) && wpos.off < BLOCK && (bs == [] ==> wpos.off == 0)
    {
      Store(bs);
      Bump(|bs|);
      assert WriteArea(0) == [];
      if more || wpos.off == BLOCK { AddChunk(); }
    }

    /** consume: drops the first `n` unread bytes, or all of them, whether or not
        the buffer is readable; afterwards it is, unless `n` is 0. */
    method Consume(n: nat)
      requires Valid()
      modifies this
      ensures Valid() && Kept() && rpos.idx == old(rpos.idx)
      ensures Unread() == Dropped(old(Unread()), n)
      ensures Readable() == (n > 0 || old(Readable()))
      ensures chunks[|chunks| - 1] == old(chunks[|chunks| - 1]) && wpos.off == old(wpos.off)
    {
      ghost var unread := Unread();
      var left, drop := ConsumeFull(n);
      if left > 0 {
        DroppedTwice(unread, n - left, left);
        ConsumeLast(left);
      }
      assert Unread() == Dropped(unread, n);
      DropChunks(drop);
    }

    /** The part of consume that takes from the last chunk. */
    method ConsumeLast(left: nat)
      requires InOrder() && rpos.idx == wpos.idx
      modifies this`rpos
      ensures InOrder() && rpos.idx == wpos.idx
      ensures Unread() == Dropped(old(Unread()), left)
    {
      var k := if left < sizes[rpos.idx] - rpos.off then left else sizes[rpos.idx] - rpos.off;
      FromLast(pieces, rpos);
      FromSkip(pieces, rpos, k);
      DroppedIs(Unread(), left);
      rpos := rpos.(off := rpos.off + k);
    }

    /** The loop of consume: the chunks before the last one. */
    method ConsumeFull(n: nat) returns (left: nat, drop: nat)
      requires InOrder()
      modifies this`rpos
      ensures InOrder() && left <= n && rpos.idx == old(rpos.idx) + drop
      ensures Unread() == Dropped(old(Unread()), n - left)
      ensures left > 0 ==> rpos.idx == wpos.idx
      ensures Readable() == (n > 0 || old(Readable()))
    {
      left, drop := n, 0;
      ghost var unread, taken: nat := Unread(), 0;
      while left > 0 && rpos.idx < wpos.idx
        invariant InOrder() && rpos.idx == old(rpos.idx) + drop
        invariant taken + left == n && Unread() == Dropped(unread, taken)
        invariant n == 0 ==> rpos == old(rpos)
        invariant (left == n && rpos == old(rpos)) || Readable()
        decreases wpos.idx - rpos.idx, left
      {
        var k, next := ConsumeSome(left);
        DroppedTwice(unread, taken, k);
        left, taken := left - k, taken + k;
        if next { drop := drop + 1; }
      }
    }

    /** One round of the loop of consume. */
    method ConsumeSome(left: nat) returns (k: nat, next: bool)
      requires InOrder() && left > 0 && rpos.idx < wpos.idx
      modifies this`rpos
      ensures InOrder() && k <= left && Unread() == Dropped(old(Unread()), k) && Readable()
      ensures rpos.idx == old(rpos.idx) + if next then 1 else 0
      ensures next || k == left
    {
      k := if left < sizes[rpos.idx] - rpos.off then left else sizes[rpos.idx] - rpos.off;
      FromSkip(pieces, rpos, k);
      DroppedIs(Unread(), k);
      rpos := rpos.(off := rpos.off + k);
      next := sizes[rpos.idx] - rpos.off == 0;
      if next {
        FromNextChunk(pieces, rpos);
        rpos := Position(rpos.idx + 1, 0);
      }
    }

    /** byteCount: the number of unread bytes if the read chunk is the first one;
        otherwise it also counts the chunks from the second up to the read one. */
    method ByteCount() returns (count: nat)
      requires Valid()
      ensures count == |Unread()| + Sum(sizes[1..rpos.idx + 1])
      ensures rpos.idx == 0 ==> count == |Unread()|
    {
      count := ReadSize();
      for i := 1 to |sizes|
        invariant count == ReadSize() + Sum(sizes[1..i])
      {
        assert sizes[1..i + 1] == sizes[1..i] + [sizes[i]];
        SumSplit(sizes[1..i], [sizes[i]]);
        count := count + sizes[i];
      }
      assert sizes[1..|sizes|] == sizes[1..];
      FromLength(pieces, rpos, sizes);
    }

    /** isConsumed. */
    function IsConsumed(): bool
      reads this
    {
      rpos.idx != 0 || rpos.off != 0
    }

    /** copyFrom.  A source that was consumed, or is empty, is not copied.  The
        buffer becomes unreadable when it was drained and the first chunk of the
        source does not fit behind what its last chunk holds. */
    method CopyFrom(other: Buffer)
      requires Valid() && other.Valid() && this != other && Disjoint(chunks, other.chunks)
      modifies this, chunks
      ensures Valid() && Kept() && other.Valid() && rpos == old(rpos)
      ensures other.IsConsumed() ==> Unread() == old(Unread())
      ensures !other.IsConsumed() ==> Unread() == old(Unread()) + other.Unread()
      ensures Readable() == (old(Readable()) && (other.IsConsumed() || other.Unread() == [] ||
                             !old(rpos == wpos && other.sizes[0] > WriteSize())))
      ensures old(wpos.off) < BLOCK ==> wpos.off < BLOCK
    {
      if other.IsConsumed() { return; }
      FromStart(other.pieces);
      if other.ReadSize() == 0 { return; }
      CopyAll(other);
      if wpos.off == BLOCK {
        EmptyIsEnd();
        AddChunk();
      }
    }

    /** The loop of copyFrom. */
    method CopyAll(other: Buffer)
      requires Valid() && other.Valid() && this != other && Disjoint(chunks, other.chunks)
      requires !other.IsConsumed() && other.ReadSize() > 0
      modifies this, chunks
      ensures Valid() && Kept() && other.Valid() && rpos == old(rpos)
      ensures Unread() == old(Unread()) + Flat(other.pieces)
      ensures Readable() == (old(Readable()) && !old(rpos == wpos && other.sizes[0] > BLOCK - wpos.off))
    {
      ghost var unread, readable := Unread(), Readable();
      ghost var stuck := rpos == wpos && other.sizes[0] > BLOCK - wpos.off;
      for i := 0 to |other.chunks|
        invariant Valid() && Kept() && rpos == old(rpos)
        invariant Unread() == unread + Flat(other.pieces[..i])
        invariant if i == 0 then wpos == old(wpos) && Readable() == readable && (chunks == old(chunks))
                  else (i < |other.chunks| ==> wpos.off > 0) && Unread() != [] && Readable() == (readable && !stuck)
      {
        ghost var bs := other.pieces[i];
        OnePieceMore(unread, other.pieces, i);
        EmptyIsEnd();
        CopyChunk(other, i, i != 0 || other.sizes[i] > BLOCK - wpos.off);
      }
      assert other.pieces[..|other.pieces|] == other.pieces;
      forall i | 0 <= i < |other.chunks| ensures FilledAt(other.chunks, other.sizes, other.pieces, i) {
        assert old(FilledAt(other.chunks, other.sizes, other.pieces, i)) && other.chunks[i] in other.chunks;
      }
    }

    /** One round of that loop. */
    method CopyChunk(other: Buffer, i: nat, add: bool)
      requires Valid() && other.Valid() && this != other && i < |other.chunks|
      requires if add then wpos.off > 0 else other.sizes[i] <= BLOCK - wpos.off
      modifies this`chunks, this`sizes, this`pieces, this`wpos, chunks[wpos.idx]
      ensures Valid() && Kept() && Unread() == old(Unread()) + old(other.pieces[i])
      ensures Readable() == (old(Readable()) && !(add && old(rpos == wpos)))
      ensures wpos.off >= other.sizes[i]
    {
      if add { AddChunk(); }
      assert FilledAt(other.chunks, other.sizes, other.pieces, i);
      Store(other.chunks[i][..other.sizes[i]]);
      Bump(other.sizes[i]);
    }

    /** appendFrom.  A source that was consumed, or is empty, is left alone.
        Otherwise the buffer takes over all its chunks and becomes readable; the
        source is a well-formed empty buffer exactly when its last chunk was not
        empty, because its write position is reset only then. */
    method AppendFrom(other: Buffer)
      requires Valid() && other.Valid() && this != other && Disjoint(chunks, other.chunks)
      modifies this, other
      ensures Valid() && Disjoint(chunks, other.chunks)
      ensures old(other.IsConsumed() || other.Unread() == []) ==>
        && pieces == old(pieces) && rpos == old(rpos) && wpos == old(wpos)
        && other.Valid() && other.pieces == old(other.pieces) && other.rpos == old(other.rpos)
      ensures old(!other.IsConsumed() && other.Unread() != []) ==>
        && Unread() == old(Unread()) + old(other.Unread()) && Readable()
        && pieces == Joined(old(pieces), old(other.pieces))
        && rpos == old(if 0 < rpos.off == sizes[rpos.idx] then Position(rpos.idx + 1, 0) else rpos)
        && other.Valid() == old(other.wpos.off > 0) && |other.chunks| == 1 && other.rpos == other.wpos
        && other.wpos == old(if other.wpos.off > 0 then Position(0, 0) else other.wpos)
        && (other.Valid() ==> other.Unread() == [] && other.Readable())
    {
      if other.IsConsumed() { return; }
      other.EmptyIsEnd();
      FromStart(other.pieces);
      if other.ReadSize() == 0 { return; }
      AppendAll(other);
    }

    /** The part of appendFrom that finds something to append. */
    method AppendAll(other: Buffer)
      requires Valid() && other.Valid() && this != other && Disjoint(chunks, other.chunks)
      requires other.pieces[0] != [] && NoHoles(other.pieces, Position(0, 0))
      modifies this, other
      ensures Valid() && Disjoint(chunks, other.chunks)
      ensures Unread() == old(Unread()) + old(Flat(other.pieces)) && Readable()
      ensures pieces == Joined(old(pieces), old(other.pieces))
      ensures rpos == old(if 0 < rpos.off == sizes[rpos.idx] then Position(rpos.idx + 1, 0) else rpos)
      ensures other.Stored() && other.pieces == [[]] && other.rpos == other.wpos
      ensures other.wpos == if old(other.wpos.off) > 0 then Position(0, 0) else old(other.wpos)
    {
      JoinedBytes(pieces, rpos, other.pieces);
      JoinedShape(pieces, rpos, other.pieces);
      JoinedMove(pieces, rpos, other.pieces);
      assert Flat(other.pieces) != [];
      var otherLast := TakeChunks(other);
      Reposition();
      other.Restart(otherLast);
    }

    /** The chunks of both buffers, without empty ones and behind a full one. */
    method TakeChunks(other: Buffer) returns (otherLast: array?<char>)
      requires Valid() && other.Valid() && this != other && Disjoint(chunks, other.chunks)
      requires Trimmed(other.pieces) != []
      modifies this`chunks, this`sizes, this`pieces, other`chunks, other`sizes, other`pieces
      ensures Stored() && pieces == Joined(old(pieces), old(other.pieces))
      ensures otherLast == null <==> old(other.wpos.off) > 0
      ensures otherLast != null ==> otherLast.Length == BLOCK && otherLast !in chunks
    {
      var last := MaybeRemoveLast();
      otherLast := other.MaybeRemoveLast();
      PushAll(other);
      CloseFull(last);
    }

    /** The positions, once the chunks have changed. */
    method Reposition()
      requires SizesOf(sizes, pieces) && Within(pieces, rpos) && NoHoles(pieces, rpos) && Unread() != []
      modifies this`rpos, this`wpos
      ensures InOrder() && Readable() && Unread() == old(Unread()) && rpos == old(Moved(pieces, rpos))
    {
      MovedReads(pieces, rpos);
      if sizes[rpos.idx] - rpos.off == 0 { rpos := Position(rpos.idx + 1, 0); }
      wpos := Position(|sizes| - 1, sizes[|sizes| - 1]);
    }

    /** maybeRemoveLastChunk: leaves the write position to the caller. */
    method MaybeRemoveLast() returns (last: array?<char>)
      requires Valid()
      modifies this`chunks, this`sizes, this`pieces
      ensures Stored() && pieces == Trimmed(old(pieces))
      ensures last == null <==> old(wpos.off) > 0
      ensures forall c :: c in chunks ==> c in old(chunks)
      ensures last != null ==> last.Length == BLOCK && last in old(chunks) && last !in chunks
    {
      last := null;
      if sizes[wpos.idx] == 0 {
        last := chunks[wpos.idx];
        LastApart(chunks);
        OwnedTake(chunks, wpos.idx);
        FillsTake(chunks, sizes, pieces, wpos.idx);
        chunks, sizes, pieces := chunks[..wpos.idx], sizes[..wpos.idx], pieces[..wpos.idx];
      }
    }

    /** All chunks of another buffer at the end of this one. */
    method PushAll(other: Buffer)
      requires Stored() && other.Stored() && this != other && Disjoint(chunks, other.chunks)
      modifies this`chunks, this`sizes, this`pieces
      ensures Stored() && pieces == old(pieces) + other.pieces
      ensures chunks == old(chunks) + other.chunks
    {
      OwnedConcat(chunks, other.chunks);
      FillsConcat(chunks, sizes, pieces, other.chunks, other.sizes, other.pieces);
      for i := 0 to |other.chunks|
        invariant chunks == old(chunks) + other.chunks[..i] && sizes == old(sizes) + other.sizes[..i]
        invariant pieces == old(pieces)
      {
        chunks, sizes := chunks + [other.chunks[i]], sizes + [other.sizes[i]];
      }
      assert other.chunks[..|other.chunks|] == other.chunks && other.sizes[..|other.chunks|] == other.sizes;
      pieces := pieces + other.pieces;
    }

    /** A full last chunk is followed by the saved one, or by a new one. */
    method CloseFull(last: array?<char>)
      requires Stored() && pieces != [] && (last != null ==> last.Length == BLOCK && last !in chunks)
      modifies this`chunks, this`sizes, this`pieces
      ensures Stored() && pieces == Closed(old(pieces))
      ensures || chunks == old(chunks)
              || (|chunks| == |old(chunks)| + 1 && chunks[..|chunks| - 1] == old(chunks) &&
                  (chunks[|chunks| - 1] == last || fresh(chunks[|chunks| - 1])))
    {
      if sizes[|sizes| - 1] == BLOCK {
        var chunk := last;
        if last == null { chunk := new char[BLOCK]; }
        OwnedExtend(chunks, chunk);
        FillsExtend(chunks, sizes, pieces, chunk);
        chunks, sizes, pieces := chunks + [chunk], sizes + [0], pieces + [[]];
      }
    }

    /** The source after all its chunks were taken. */
    method Restart(last: array?<char>)
      requires last != null ==> last.Length == BLOCK
      modifies this
      ensures Stored() && pieces == [[]] && rpos == wpos
      ensures wpos == if last == null then Position(0, 0) else old(wpos)
      ensures chunks[0] == last || fresh(chunks[0])
    {
      var chunk := last;
      if last == null {
        chunk := new char[BLOCK];
        wpos := Position(0, 0);
      }
      chunks, sizes, pieces := [chunk], [0], [[]];
      rpos := wpos;
      assert FilledAt(chunks, sizes, pieces, 0);
    }
  }

  // ----- whole sequences of calls -----

  datatype Op =
    | ReserveOp(n: nat)
    | ReceiveOp(bs: seq<char>)  // reserve, store in the write area, advance
    | WriteOp(bs: seq<char>)
    | ConsumeOp(n: nat)

  /** What the same call does to a queue of bytes. */
  ghost function QueueAfter(q: seq<char>, op: Op): seq<char> {
    match op
    case ReserveOp(_) => q
    case ReceiveOp(bs) => if |bs| <= BLOCK then q + bs else q
    case WriteOp(bs) => q + bs
    case ConsumeOp(n) => Dropped(q, n)
  }

  ghost function QueueRun(ops: seq<Op>): seq<char> {
    if ops == [] then [] else QueueAfter(QueueRun(ops[..|ops| - 1]), ops[|ops| - 1])
  }

  predicate IsRoom(op: Op) {
    op.ReserveOp? && 0 < op.n <= BLOCK
  }

  /** Every write comes right behind a reserve that makes room. */
  predicate WritesReserved(ops: seq<Op>) {
    forall i :: 0 <= i < |ops| && ops[i].WriteOp? ==> i > 0 && IsRoom(ops[i - 1])
  }

  /** One call on a buffer. */
  method Apply(b: Buffer, op: Op)
    requires b.Valid()
    modifies b, b.chunks
    ensures b.Valid() && b.Kept() && b.rpos.idx == old(b.rpos.idx)
    ensures b.Unread() == QueueAfter(old(b.Unread()), op)
    ensures old(b.Readable()) && (op.WriteOp? ==> old(b.WriteSize()) > 0) ==> b.Readable()
    ensures IsRoom(op) ==> b.WriteSize() > 0
  {
    match op
    case ReserveOp(n) => var _ := b.Reserve(n);
    case ReceiveOp(bs) => Receive(b, bs);
    case WriteOp(bs) => b.Write(bs);
    case ConsumeOp(n) => b.Consume(n);
  }

  /** How a producer uses reserve and advance. */
  method Receive(b: Buffer, bs: seq<char>)
    requires b.Valid()
    modifies b, b.chunks
    ensures b.Valid() && b.Kept() && b.rpos.idx == old(b.rpos.idx)
    ensures b.Unread() == if |bs| <= BLOCK then old(b.Unread()) + bs else old(b.Unread())
    ensures b.Readable() == old(b.Readable()) && (old(b.WriteSize()) >= |bs| ==> b.rpos == old(b.rpos))
    ensures b.WriteSize() == if |bs| > BLOCK then old(b.WriteSize())
                             else (if old(b.WriteSize()) < |bs| then BLOCK else old(b.WriteSize())) - |bs|
  {
    var ok := b.Reserve(|bs|);
    if ok {
      b.Store(bs);
      var _ := b.Advance(|bs|);
    }
  }

  /** After any sequence of calls a buffer holds what a byte queue holds, and
      counts its bytes; if every write comes behind a reserve, its read area is
      empty only when the queue is. */
  method Replay(ops: seq<Op>) returns (count: nat, next: nat)
    ensures count == |QueueRun(ops)|
    ensures WritesReserved(ops) ==> (next == 0 <==> QueueRun(ops) == [])
  {
    var b := new Buffer();
    for i := 0 to |ops|
      invariant b.Valid() && fresh(b) && forall j :: 0 <= j < |b.chunks| ==> fresh(b.chunks[j])
      invariant b.rpos.idx == 0 && b.Unread() == QueueRun(ops[..i])
      invariant WritesReserved(ops) ==> b.Readable() && (i > 0 && IsRoom(ops[i - 1]) ==> b.WriteSize() > 0)
    {
      assert ops[..i + 1][..i] == ops[..i];
      Apply(b, ops[i]);
    }
    assert ops[..|ops|] == ops;
    count := b.ByteCount();
    next := b.ReadSize();
  }

  // ----- what goes wrong outside the conditions -----

  /** Filling the last chunk with advance, draining it, and writing without a
      reserve: there is nothing in the read area, although bytes are unread. */
  method WriteToFullDrained(bs: seq<char>, data: seq<char>) returns (b: Buffer, size: nat)
    requires |bs| == BLOCK && data != []
    ensures b.Valid() && b.Unread() == data && size == 0 && !b.Readable()
  {
    b := new Buffer();
    var _ := b.Reserve(BLOCK);
    b.Store(bs);
    var _ := b.Advance(BLOCK);
    FullThenDrained(bs);
    b.Consume(BLOCK);
    b.EmptyIsEnd();
    b.Write(data);
    size := b.ReadSize();
  }

  lemma FullThenDrained(bs: seq<char>)
    requires |bs| == BLOCK
    ensures [] + bs == bs && Dropped(bs, BLOCK) == []
  {
    DroppedIs(bs, BLOCK);
  }

  /** The same with copyFrom, into any drained buffer without room for the first
      chunk of the source. */
  method CopyToDrained(b: Buffer, other: Buffer) returns (size: nat)
    requires b.Valid() && other.Valid() && b != other && Disjoint(b.chunks, other.chunks)
    requires b.rpos == b.wpos && !other.IsConsumed() && other.Unread() != [] && other.sizes[0] > b.WriteSize()
    modifies b, b.chunks
    ensures b.Valid() && b.Unread() == old(other.Unread()) && size == 0
  {
    b.EmptyIsEnd();
    b.CopyFrom(other);
    size := b.ReadSize();
  }

  /** Appending to any buffer that was drained behind some bytes: byteCount counts
      too much. */
  method AppendToDrained(b: Buffer, other: Buffer) returns (count: nat)
    requires b.Valid() && other.Valid() && b != other && Disjoint(b.chunks, other.chunks)
    requires b.rpos == b.wpos && b.wpos.off > 0 && !other.IsConsumed() && other.Unread() != []
    modifies b, other
    ensures b.Valid() && b.Unread() == old(other.Unread()) && count > |b.Unread()|
  {
    b.EmptyIsEnd();
    b.AppendFrom(other);
    count := b.ByteCount();
    SumAtLeastLast(b.sizes[1..b.rpos.idx + 1]);
  }

  /** A buffer that has received and consumed `x`. */
  method Drained(x: seq<char>) returns (b: Buffer)
    requires 0 < |x| <= BLOCK
    ensures fresh(b) && forall i :: 0 <= i < |b.chunks| ==> fresh(b.chunks[i])
    ensures b.Valid() && b.Unread() == [] && b.rpos == b.wpos && b.wpos.off == |x|
  {
    b := new Buffer();
    Receive(b, x);
    DroppedIs(x, |x|);
    b.Consume(|x|);
    b.EmptyIsEnd();
  }

  /** So it does whenever `x` was received and consumed before `y` is appended. */
  method OvercountAfterDrain(x: seq<char>, y: seq<char>) returns (count: nat)
    requires 0 < |x| <= BLOCK && y != []
    ensures count > |y|
  {
    var b := Drained(x);
    var other := new Buffer();
    other.Write(y);
    count := AppendToDrained(b, other);
  }

  /** Appending from any buffer whose last chunk is empty: it is no buffer anymore. */
  method AppendEmptyTail(b: Buffer, other: Buffer)
    requires b.Valid() && other.Valid() && b != other && Disjoint(b.chunks, other.chunks)
    requires !other.IsConsumed() && other.Unread() != [] && other.wpos.off == 0
    modifies b, other
    ensures !other.Valid() && other.rpos == other.wpos == old(other.wpos) && |other.chunks| < other.wpos.idx + 1
  {
    b.AppendFrom(other);
  }

  /** So is a source that was filled and has reserved room for more. */
  method AppendReserved(y: seq<char>) returns (other: Buffer)
    requires |y| == BLOCK
    ensures !other.Valid()
  {
    var b := new Buffer();
    other := new Buffer();
    Receive(other, y);
    other.EmptyIsEnd();
    var _ := other.Reserve(1);
    AppendEmptyTail(b, other);
  }

  ghost predicate Disjoint(a: seq<array<char>>, b: seq<array<char>>) {
    forall c :: c in a ==> c !in b
  }

  lemma OnePieceMore(front: seq<char>, p: seq<seq<char>>, i: nat)
    requires i < |p|
    ensures front + Flat(p[..i]) + p[i] == front + Flat(p[..i + 1])
  {
    assert p[..i + 1] == p[..i] + [p[i]];
    FlatConcat(p[..i], [p[i]]);
    FlatOne(p[i]);
  }

  lemma OneMoreSlice(front: seq<char>, data: seq<char>, src: nat, n: nat)
    requires src + n <= |data|
    ensures front + data[..src] + data[src..src + n] == front + data[..src + n]
  {
  }

  ghost predicate Owned(chunks: seq<array<char>>) {
    && (forall i :: 0 <= i < |chunks| ==> chunks[i].Length == BLOCK)
    && (forall i, j {:trigger Apart(chunks, i, j)} :: 0 <= i < j < |chunks| ==> Apart(chunks, i, j))
  }

  ghost predicate Apart(chunks: seq<array<char>>, i: nat, j: nat)
    requires i < j < |chunks|
  {
    chunks[i] != chunks[j]
  }

  lemma LastApart(chunks: seq<array<char>>)
    requires Owned(chunks)
    ensures forall i :: 0 <= i < |chunks| - 1 ==> chunks[i] != chunks[|chunks| - 1]
  {
    forall i | 0 <= i < |chunks| - 1 ensures chunks[i] != chunks[|chunks| - 1] {
      assert Apart(chunks, i, |chunks| - 1);
    }
  }

  lemma OwnedExtend(chunks: seq<array<char>>, chunk: array<char>)
    requires Owned(chunks) && chunk.Length == BLOCK && chunk !in chunks
    ensures Owned(chunks + [chunk])
  {
    forall i, j | 0 <= i < j < |chunks| + 1 ensures Apart(chunks + [chunk], i, j) {
      if j < |chunks| { assert Apart(chunks, i, j); }
    }
  }

  lemma OwnedDrop(chunks: seq<array<char>>, n: nat)
    requires Owned(chunks) && n <= |chunks|
    ensures Owned(chunks[n..])
  {
    forall i, j | 0 <= i < j < |chunks| - n ensures Apart(chunks[n..], i, j) { assert Apart(chunks, n + i, n + j); }
  }

  ghost predicate SizesOf(sizes: seq<nat>, p: seq<seq<char>>) {
    && |sizes| == |p|
    && (forall i :: 0 <= i < |p| ==> sizes[i] == |p[i]| <= BLOCK)
  }

  lemma OwnedTake(chunks: seq<array<char>>, n: nat)
    requires Owned(chunks) && n <= |chunks|
    ensures Owned(chunks[..n])
  {
    forall i, j | 0 <= i < j < n ensures Apart(chunks[..n], i, j) { assert Apart(chunks, i, j); }
  }

  lemma OwnedConcat(a: seq<array<char>>, b: seq<array<char>>)
    requires Owned(a) && Owned(b) && Disjoint(a, b)
    ensures Owned(a + b)
  {
    forall i, j | 0 <= i < j < |a + b| ensures Apart(a + b, i, j) {
      if j < |a| {
        assert Apart(a, i, j);
      } else if i >= |a| {
        assert Apart(b, i - |a|, j - |a|);
      } else {
        assert (a + b)[i] in a && (a + b)[j] in b;
      }
    }
  }

  lemma FillsTake(chunks: seq<array<char>>, sizes: seq<nat>, p: seq<seq<char>>, n: nat)
    requires Fills(chunks, sizes, p) && n <= |p|
    ensures Fills(chunks[..n], sizes[..n], p[..n])
  {
    forall i | 0 <= i < n ensures FilledAt(chunks[..n], sizes[..n], p[..n], i) { assert FilledAt(chunks, sizes, p, i); }
  }

  lemma FillsConcat(a: seq<array<char>>, sa: seq<nat>, p: seq<seq<char>>,
                    b: seq<array<char>>, sb: seq<nat>, q: seq<seq<char>>)
    requires Fills(a, sa, p) && Fills(b, sb, q)
    ensures Fills(a + b, sa + sb, p + q)
  {
    forall i | 0 <= i < |a + b| ensures FilledAt(a + b, sa + sb, p + q, i) {
      if i < |a| { assert FilledAt(a, sa, p, i); } else { assert FilledAt(b, sb, q, i - |a|); }
    }
  }

  /** The first `sizes[i]` bytes of each chunk are the piece `p[i]`. */
  ghost predicate Fills(chunks: seq<array<char>>, sizes: seq<nat>, p: seq<seq<char>>)
    reads chunks
  {
    && |chunks| == |sizes| == |p|
    && (forall i {:trigger FilledAt(chunks, sizes, p, i)} :: 0 <= i < |chunks| ==> FilledAt(chunks, sizes, p, i))
  }

  ghost predicate FilledAt(chunks: seq<array<char>>, sizes: seq<nat>, p: seq<seq<char>>, i: nat)
    requires |chunks| == |sizes| == |p| && i < |chunks|
    reads chunks[i]
  {
    sizes[i] <= chunks[i].Length && chunks[i][..sizes[i]] == p[i]
  }

  lemma FillsExtend(chunks: seq<array<char>>, sizes: seq<nat>, p: seq<seq<char>>, chunk: array<char>)
    requires Fills(chunks, sizes, p) && chunk.Length == BLOCK
    ensures Fills(chunks + [chunk], sizes + [0], p + [[]])
  {
    forall i | 0 <= i < |chunks| + 1 ensures FilledAt(chunks + [chunk], sizes + [0], p + [[]], i) {
      if i < |chunks| { assert FilledAt(chunks, sizes, p, i); }
    }
  }

  lemma FillsDrop(chunks: seq<array<char>>, sizes: seq<nat>, p: seq<seq<char>>, n: nat)
    requires Fills(chunks, sizes, p) && n < |p|
    ensures Fills(chunks[n..], sizes[n..], p[n..])
  {
    forall i | 0 <= i < |chunks| - n ensures FilledAt(chunks[n..], sizes[n..], p[n..], i) {
      assert FilledAt(chunks, sizes, p, n + i);
    }
  }

  lemma FillsGrown(chunks: seq<array<char>>, sizes: seq<nat>, p: seq<seq<char>>, bs: seq<char>)
    requires p != [] && Fills(chunks, sizes, p) && chunks[|p| - 1].Length == BLOCK
    requires var n := |p| - 1; sizes[n] + |bs| <= BLOCK && chunks[n][sizes[n]..sizes[n] + |bs|] == bs
    ensures var n := |p| - 1; Fills(chunks, sizes[n := sizes[n] + |bs|], Grown(p, bs))
  {
    var n := |p| - 1;
    var sizes', p' := sizes[n := sizes[n] + |bs|], Grown(p, bs);
    forall i | 0 <= i < |chunks| ensures FilledAt(chunks, sizes', p', i) {
      assert FilledAt(chunks, sizes, p, i);
      if i == n { assert chunks[n][..sizes[n] + |bs|] == chunks[n][..sizes[n]] + bs; }
    }
  }
}
