/**
 Buffer::Iterator of buffer.hpp and buffer.cpp: reads a chunked buffer as if its
 unread bytes were contiguous.
 */
module Iterators {
  import opened Bytes
  import opened Chunks
  import opened Buffers

  /** The byte that lies right behind the last one written.  Past the end of a
      full chunk it is some byte of foreign memory, `past`. */
  function Junk(b: Buffer, past: char): char
    requires b.Valid()
    reads b, b.chunks
  {
    if b.wpos.off < BLOCK then b.chunks[b.wpos.idx][b.wpos.off] else past
  }

  /** One byte further from a readable position. */
  lemma StepWithin(p: seq<seq<char>>, r: Position)
    requires Within(p, r) && r.off + 1 < |p[r.idx]|
    ensures From(p, r.(off := r.off + 1)) == Dropped(From(p, r), 1) && From(p, r) != []
  {
    FromSkip(p, r, 1);
    DroppedIs(From(p, r), 1);
  }

  lemma StepAcross(p: seq<seq<char>>, r: Position)
    requires Within(p, r) && r.off + 1 == |p[r.idx]|
    ensures
      var r' := if r.idx + 1 < |p| then Position(r.idx + 1, 0) else r.(off := r.off + 1);
      Within(p, r') && From(p, r') == Dropped(From(p, r), 1) && From(p, r) != []
  {
    FromSkip(p, r, 1);
    DroppedIs(From(p, r), 1);
    if r.idx + 1 < |p| { FromNextChunk(p, r.(off := r.off + 1)); }
  }

  class Iterator {
    const buffer: Buffer
    var pos: Position
    var bytesRead: nat
    var bytesTotal: nat
    var budget: nat              // at least this many bytes left in the chunk
    var chunkStart: array<char>

    /** The bytes that the iterator has not passed yet. */
    ghost function Rest(): seq<char>
      requires Within(buffer.pieces, pos)
      reads this, buffer
    {
      From(buffer.pieces, pos)
    }

    /** The iterator finds its next byte in the chunk it is in. */
    ghost predicate Valid()
      reads this, buffer, buffer.chunks
    {
      Sound() && ReadableAt(buffer.pieces, pos)
    }

    ghost predicate Sound()
      reads this, buffer, buffer.chunks
    {
      && buffer.Valid()
      && buffer.rpos.idx <= pos.idx
      && Within(buffer.pieces, pos)
      && chunkStart == buffer.chunks[pos.idx]
      && budget <= buffer.sizes[pos.idx] - pos.off
      && bytesRead + |Rest()| == |buffer.Unread()|
    }

    /** begin: before the first unread byte, or stuck if the buffer is. */
    constructor (b: Buffer)
      requires b.Valid()
      ensures Sound() && buffer == b && Rest() == b.Unread() && bytesRead == 0
      ensures Valid() <==> b.Readable()
      ensures b.rpos.idx == 0 ==> bytesTotal == |b.Unread()|
    {
      buffer, pos, bytesRead := b, b.rpos, 0;
      var total := b.ByteCount();
      bytesTotal := total;
      budget := b.sizes[b.rpos.idx] - b.rpos.off;
      chunkStart := b.chunks[b.rpos.idx];
    }

    /** eob: nothing is left; never true when stuck. */
    function Eob(): (r: bool)
      requires Sound()
      reads this, buffer, buffer.chunks
      ensures r <==> Valid() && Rest() == []
    {
      assert ReadableAt(buffer.pieces, pos) ==> (Rest() == [] <==> pos == End(buffer.pieces)) by {
        if ReadableAt(buffer.pieces, pos) { EmptyAtEnd(buffer.pieces, pos); }
      }
      if budget > 0 then false else pos.idx == buffer.wpos.idx && pos.off == buffer.wpos.off
    }

    /** getChar: the next byte, or whatever lies behind the last one. */
    function GetChar(past: char): (c: char)
      requires Valid()
      reads this, buffer, buffer.chunks
      ensures c == if Rest() == [] then Junk(buffer, past) else Rest()[0]
    {
      EmptyAtEnd(buffer.pieces, pos);
      assert FilledAt(buffer.chunks, buffer.sizes, buffer.pieces, pos.idx);
      if pos.off < BLOCK then chunkStart[pos.off] else past
    }

    /** next: one byte further, and no further than the end; nowhere when stuck. */
    method Next()
      requires Sound()
      modifies this
      ensures Sound() && (Valid() <==> old(Valid()))
      ensures !old(Valid()) ==> pos == old(pos) && bytesRead == old(bytesRead)
      ensures old(Valid()) ==> Rest() == Dropped(old(Rest()), 1)
      ensures old(Valid()) ==> bytesRead == old(bytesRead) + if old(Rest()) == [] then 0 else 1
    {
      if budget > 1 {
        StepWithin(buffer.pieces, pos);
        budget := budget - 1;
        pos := pos.(off := pos.off + 1);
        bytesRead := bytesRead + 1;
        return;
      }
      SlowNext();
    }

    method SlowNext()
      requires Sound()
      modifies this
      ensures Sound() && (Valid() <==> old(Valid()))
      ensures !old(Valid()) ==> pos == old(pos) && bytesRead == old(bytesRead)
      ensures old(Valid()) ==> Rest() == Dropped(old(Rest()), 1)
      ensures old(Valid()) ==> bytesRead == old(bytesRead) + if old(Rest()) == [] then 0 else 1
    {
      if pos.off < buffer.sizes[pos.idx] {
        StepOn();
      } else if ReadableAt(buffer.pieces, pos) {
        EmptyAtEnd(buffer.pieces, pos);
      }
    }

    /** The part of slowNext that finds a byte in the current chunk. */
    method StepOn()
      requires Sound() && pos.off < buffer.sizes[pos.idx]
      modifies this
      ensures Valid() && Rest() == Dropped(old(Rest()), 1)
      ensures old(Rest()) != [] && bytesRead == old(bytesRead) + 1
    {
      if pos.off + 1 < buffer.sizes[pos.idx] {
        StepWithin(buffer.pieces, pos);
      } else {
        StepAcross(buffer.pieces, pos);
      }
      pos := pos.(off := pos.off + 1);
      bytesRead := bytesRead + 1;
      if pos.off == buffer.sizes[pos.idx] && pos.idx < buffer.wpos.idx {
        pos := Position(pos.idx + 1, 0);
        chunkStart := buffer.chunks[pos.idx];
      }
      budget := buffer.sizes[pos.idx] - pos.off;
    }
  }

  /** Stepping from begin until eob visits exactly the unread bytes. */
  method Visit(b: Buffer) returns (visited: seq<char>, count: nat)
    requires b.Valid() && b.Readable()
    ensures visited == b.Unread() && count == |visited|
  {
    var it := new Iterator(b);
    visited := [];
    while !it.Eob()
      invariant it.Valid() && it.buffer == b && it.bytesRead == |visited|
      invariant b.Unread() == visited + it.Rest()
      decreases |it.Rest()|
    {
      DroppedIs(it.Rest(), 1);
      visited := visited + [it.GetChar(' ')];
      it.Next();
    }
    count := it.bytesRead;
  }

  /** However often `next` is called, a readable buffer is read byte by byte to its
      end, and an unreadable one is not read at all and never ends. */
  method StepMany(b: Buffer, n: nat) returns (read: nat, ended: bool)
    requires b.Valid()
    ensures b.Readable() ==> read == (if n < |b.Unread()| then n else |b.Unread()|) && ended == (n >= |b.Unread()|)
    ensures !b.Readable() ==> read == 0 && !ended
  {
    var it := new Iterator(b);
    for i := 0 to n
      invariant it.Sound() && it.buffer == b && (it.Valid() <==> b.Readable())
      invariant b.Readable() ==> it.bytesRead == (if i < |b.Unread()| then i else |b.Unread()|)
      invariant b.Readable() ==> |it.Rest()| == |b.Unread()| - it.bytesRead
      invariant !b.Readable() ==> it.bytesRead == 0
    {
      it.Next();
    }
    read, ended := it.bytesRead, it.Eob();
  }
}
