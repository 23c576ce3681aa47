/**
 Printing requests into a buffer (http_request.cpp), reading them from the input
 buffer of a connection (http_connection.cpp), and the reads that fill it
 (connection.cpp).
 */
module HttpConnection {
  import opened Bytes
  import opened Chunks
  import opened Buffers
  import opened Iterators
  import opened Http
  import opened HttpGrammar
  import opened HttpStream
  import opened HttpParser

  /** toBuffer. */
  method ToBuffer(r: Request, b: Buffer)
    requires b.Valid()
    modifies b, b.chunks
    ensures b.Valid() && b.Kept() && b.Unread() == old(b.Unread()) + Print(r)
    ensures b.Readable() == (old(b.Readable()) && !old(b.rpos == b.wpos && b.wpos.off == BLOCK))
  {
    ghost var u := b.Unread();
    WriteTwo(b, CStr(r.verb), " ");
    WriteTwo(b, CStr(r.address), " ");
    WriteTwo(b, CStr(r.version), "\r\n\r\n");
    PrintInOrder(u, r);
  }

  /** A string that may be empty, and a separator. */
  method WriteTwo(b: Buffer, s: string, separator: string)
    requires b.Valid() && separator != ""
    modifies b, b.chunks
    ensures b.Valid() && b.Kept() && b.Unread() == old(b.Unread()) + s + separator
    ensures b.Readable() == (old(b.Readable()) && !old(b.rpos == b.wpos && b.wpos.off == BLOCK))
    ensures b.wpos.off < BLOCK
  {
    b.Write(s);
    b.Write(separator);
  }

  lemma PrintInOrder(u: string, r: Request)
    ensures
      var v, a, w := CStr(r.verb), CStr(r.address), CStr(r.version);
      u + v + " " + a + " " + w + "\r\n\r\n" == u + Print(r)
  {
    var v, a, w, e := CStr(r.verb), CStr(r.address), CStr(r.version), "\r\n\r\n";
    Assoc(u + v + " " + a + " ", w, e);
    Assoc(u + v + " " + a, " ", w + e);
    Assoc(u + v + " ", a, " " + (w + e));
    Assoc(u + v, " ", a + (" " + (w + e)));
    Assoc(u, v, " " + (a + (" " + (w + e))));
  }

  /** How handleRequest answers: the header, then a copy of the cached file.  The
      output buffer stays readable, because the header keeps it from being drained
      when the copy starts a new chunk. */
  method Respond(out: Buffer, header: string, body: Buffer)
    requires out.Valid() && out.Readable() && out.wpos.off < BLOCK && header != ""
    requires body.Valid() && !body.IsConsumed() && out != body && Disjoint(out.chunks, body.chunks)
    modifies out, out.chunks
    ensures out.Valid() && out.Kept() && out.Readable() && out.wpos.off < BLOCK && body.Valid()
    ensures out.Unread() == old(out.Unread()) + header + old(body.Unread())
  {
    out.Write(header);
    forall i | 0 <= i < |body.chunks| ensures FilledAt(body.chunks, body.sizes, body.pieces, i) {
      assert old(FilledAt(body.chunks, body.sizes, body.pieces, i)) && body.chunks[i] in body.chunks;
    }
    out.EmptyIsEnd();
    out.CopyFrom(body);
  }

  /** From `before`, all of `total` is done once `l` is done from `now`. */
  ghost predicate Remains(before: seq<Request>, total: Loop, now: seq<Request>, l: Loop) {
    now + l.handled == before + total.handled && l.more == total.more && l.rest == total.rest
  }

  lemma RemainsStep(before: seq<Request>, total: Loop, now: seq<Request>, s: string, j: char)
    requires Remains(before, total, now, ReadLoop(s, j))
    ensures
      var p := ParseRequest(s, j);
      if p.rc != 0 then now == before + total.handled && total.more == (p.rc > 0) && total.rest == s
      else if !Accepts(p.request) then
        now + [p.request] == before + total.handled && !total.more && total.rest == Dropped(s, p.read)
      else Remains(before, total, now + [p.request], ReadLoop(Dropped(s, p.read), j))
  {
    var p := ParseRequest(s, j);
    if p.rc == 0 && Accepts(p.request) {
      var l := ReadLoop(Dropped(s, p.read), j);
      assert now + ([p.request] + l.handled) == now + [p.request] + l.handled;
    }
  }

  /** How much the reader offers to read, given the space left in the last chunk. */
  function Offer(space: int): int {
    if space >= 1024 then space else BLOCK
  }

  /** The space left in the last chunk after these reads. */
  function Space(parts: seq<string>): int {
    if parts == [] then BLOCK else Offer(Space(parts[..|parts| - 1])) - |parts[|parts| - 1]|
  }

  class Connection {
    const input: Buffer
    var request: Request
    var handled: seq<Request>  // the calls of handleRequest

    ghost predicate Valid()
      reads this, input, input.chunks
    {
      input.Valid() && input.Readable()
    }

    constructor ()
      ensures Valid() && fresh(input) && handled == [] && input.Unread() == [] && input.wpos.off == 0
      ensures forall i :: 0 <= i < |input.chunks| ==> fresh(input.chunks[i])
    {
      input := new Buffer();
      request, handled := Request("", "", ""), [];
    }

    /** handleRequest, as far as the read loop can tell. */
    method HandleRequest() returns (ok: bool)
      modifies this`handled
      ensures handled == old(handled) + [request] && ok == Accepts(request)
    {
      handled := handled + [request];
      ok := request.address != "quit";
    }

    /** readDone: handles the complete requests of the unread input in order. */
    method ReadDone(past: char) returns (more: bool)
      requires Valid()
      modifies this, input
      ensures Valid() && input.Kept() && input.wpos.off == old(input.wpos.off)
      ensures var l := ReadLoop(old(input.Unread()), old(Junk(input, past)));
        && handled == old(handled) + l.handled && more == l.more && input.Unread() == l.rest
    {
      ghost var junk := Junk(input, past);
      ghost var total := ReadLoop(input.Unread(), junk);
      while true
        invariant Valid() && input.Kept() && Junk(input, past) == junk && input.wpos.off == old(input.wpos.off)
        invariant Remains(old(handled), total, handled, ReadLoop(input.Unread(), junk))
        decreases |input.Unread()|
      {
        RemainsStep(old(handled), total, handled, input.Unread(), junk);
        var rc := ReadOne(past);
        if rc != 0 { return rc > 0; }
        var ok := HandleRequest();
        if !ok { return false; }
      }
    }

    /** Parses the first request; consumes it if it is complete. */
    method ReadOne(past: char) returns (rc: int)
      requires Valid()
      modifies this`request, input
      ensures Valid() && input.Kept() && Junk(input, past) == old(Junk(input, past))
      ensures input.wpos.off == old(input.wpos.off)
      ensures var p := ParseRequest(old(input.Unread()), old(Junk(input, past)));
        && rc == p.rc && request == p.request
        && input.Unread() == if rc == 0 then Dropped(old(input.Unread()), p.read) else old(input.Unread())
    {
      var read;
      rc, read := ParseInput(past);
      if rc == 0 { input.Consume(read); }
    }

    method ParseInput(past: char) returns (rc: int, read: nat)
      requires Valid()
      modifies this`request
      ensures var p := ParseRequest(input.Unread(), Junk(input, past));
        rc == p.rc && request == p.request && read == p.read
    {
      var it := new Iterator(input);
      rc, request := ParseRequestFrom(it, past);
      read := it.bytesRead;
    }

    /** One round of doRead for a socket that delivers `bs`, which is no more than
        the room that the reader offers. */
    method Receive(bs: string)
      requires Valid() && 0 < |bs| <= Offer(BLOCK - input.wpos.off)
      modifies input, input.chunks
      ensures Valid() && input.Kept() && input.Unread() == old(input.Unread()) + bs
      ensures input.wpos.off == BLOCK - (Offer(BLOCK - old(input.wpos.off)) - |bs|)
    {
      var _ := input.Reserve(1024);
      input.Store(bs);
      var _ := input.Advance(|bs|);
    }
  }

  /** A reader that got `s` so far stands where the loop over all of `s` ends. */
  ghost predicate CaughtUp(s: string, j: char, handled: seq<Request>, more: bool, rest: string) {
    ReadLoop(s, j) == Loop(handled, more, rest)
  }

  lemma CatchUp(s: string, j: char, handled: seq<Request>, rest: string, t: string, k: char)
    requires CaughtUp(s, j, handled, true, rest) && !Dangles(s)
    ensures var l := ReadLoop(rest + t, k); CaughtUp(s + t, k, handled + l.handled, l.more, l.rest)
  {
    LoopGoesOn(s, t, j, k);
  }

  /** The end of a stream of which the loop needs no more than the first part. */
  lemma StopsEarly(fragments: seq<string>, i: nat, s: string, j: char, handled: seq<Request>, more: bool,
                   rest: string, junk: char)
    requires i <= |fragments| && s == Flat(fragments[..i]) && CaughtUp(s, j, handled, more, rest) && !Dangles(s)
    requires i < |fragments| ==> !more
    ensures var l := ReadLoop(Flat(fragments), junk); handled == l.handled && more == l.more
  {
    assert fragments == fragments[..i] + fragments[i..];
    FlatConcat(fragments[..i], fragments[i..]);
    var t := Flat(fragments[i..]);
    if i < |fragments| {
      LoopGoesOn(s, t, j, junk);
    } else {
      assert s + t == s;
      LoopIgnoresJunk(s, j, junk);
    }
  }

  /** One read of the socket, and the requests that it completes; `s` is what was
      received before. */
  method ServeOne(c: Connection, bs: string, past: char, ghost s: string, ghost j: char)
    returns (more: bool, ghost k: char)
    requires c.Valid() && 0 < |bs| <= Offer(BLOCK - c.input.wpos.off) && !Dangles(s)
    requires CaughtUp(s, j, c.handled, true, c.input.Unread())
    modifies c, c.input, c.input.chunks
    ensures c.Valid() && c.input.Kept() && CaughtUp(s + bs, k, c.handled, more, c.input.Unread())
    ensures c.input.wpos.off == BLOCK - (Offer(BLOCK - old(c.input.wpos.off)) - |bs|)
  {
    ghost var rest := c.input.Unread();
    c.Receive(bs);
    k := Junk(c.input, past);
    CatchUp(s, j, c.handled, rest, bs, k);
    more := c.ReadDone(past);
  }

  /** A connection that receives a stream in fragments, as the socket cuts it within
      what the reader offers, none of which ends between CR and LF of a header or
      blank line, handles exactly the requests of the stream in one piece, and ends
      reading exactly when that does. */
  method Serve(fragments: seq<string>, past: char) returns (handled: seq<Request>, more: bool)
    requires forall i :: 0 <= i < |fragments| ==> 0 < |fragments[i]| <= Offer(Space(fragments[..i]))
    requires forall i :: 0 <= i <= |fragments| ==> !Dangles(Flat(fragments[..i]))
    ensures forall junk :: var l := ReadLoop(Flat(fragments), junk); handled == l.handled && more == l.more
  {
    var c := new Connection();
    more := true;
    ghost var j := past;
    var n := 0;
    while more && n < |fragments|
      invariant c.Valid() && fresh(c) && fresh(c.input)
      invariant forall k :: 0 <= k < |c.input.chunks| ==> fresh(c.input.chunks[k])
      invariant 0 <= n <= |fragments| && c.input.wpos.off == BLOCK - Space(fragments[..n])
      invariant CaughtUp(Flat(fragments[..n]), j, c.handled, more, c.input.Unread())
    {
      NextFragment(fragments, n);
      more, j := ServeOne(c, fragments[n], past, Flat(fragments[..n]), j);
      n := n + 1;
    }
    handled := c.handled;
    forall junk ensures var l := ReadLoop(Flat(fragments), junk); handled == l.handled && more == l.more {
      StopsEarly(fragments, n, Flat(fragments[..n]), j, handled, more, c.input.Unread(), junk);
    }
  }

  lemma NextFragment(fragments: seq<string>, n: nat)
    requires n < |fragments|
    ensures Flat(fragments[..n + 1]) == Flat(fragments[..n]) + fragments[n]
    ensures Space(fragments[..n + 1]) == Offer(Space(fragments[..n])) - |fragments[n]|
  {
    assert fragments[..n + 1] == fragments[..n] + [fragments[n]];
    assert fragments[..n + 1][..n] == fragments[..n];
    FlatConcat(fragments[..n], [fragments[n]]);
    FlatOne(fragments[n]);
  }
}
