/**
 The request parser of http_parser.cpp over an iterator.

 Each operation is proved equal to its counterpart on flat strings in `Http`;
 the layout of the chunks therefore does not matter.  `past` is the byte of
 foreign memory behind a chunk that is full to the end.
 */
module HttpParser {
  import opened Bytes
  import opened Chunks
  import opened Buffers
  import opened Iterators
  import opened Http
  import opened HttpStream

  /** How a helper of the parser ends: normally, or by one of two exceptions. */
  datatype Outcome = Fine | IncompleteInput | ErrorInRequest

  function Code(o: Outcome): int {
    match o
    case Fine => 0
    case IncompleteInput => 1
    case ErrorInRequest => -1
  }

  /** The iterator stands `n` bytes behind where it stood over `s`. */
  twostate predicate Advanced(it: Iterator, n: nat)
    requires old(Within(it.buffer.pieces, it.pos))
    reads it, it.buffer, it.buffer.chunks
  {
    && it.Valid()
    && n <= |old(it.Rest())| && it.Rest() == Dropped(old(it.Rest()), n)
    && it.bytesRead == old(it.bytesRead) + n
  }

  method Step(it: Iterator)
    requires it.Valid() && it.Rest() != []
    modifies it
    ensures Advanced(it, 1)
  {
    it.Next();
  }

  method ParseString(it: Iterator) returns (o: Outcome, res: string)
    requires it.Valid()
    modifies it
    ensures Advanced(it, WordLength(old(it.Rest())))
    ensures res == old(it.Rest())[..WordLength(old(it.Rest()))]
    ensures o == if WordLength(old(it.Rest())) == |old(it.Rest())| then IncompleteInput else Fine
  {
    ghost var s := it.Rest();
    res := [];
    if it.Eob() { return IncompleteInput, res; }
    while !it.Eob()
      invariant it.Valid() && s == res + it.Rest()
      invariant it.bytesRead == old(it.bytesRead) + |res|
      invariant WordLength(s) == |res| + WordLength(it.Rest())
      decreases |it.Rest()|
    {
      var c := it.GetChar(' ');
      if c == ' ' { break; }
      if c == '\r' { break; }
      OneChar(res, it.Rest());
      res := res + [c];
      Step(it);
    }
    Suffix(res, it.Rest());
    o := if it.Eob() then IncompleteInput else Fine;
  }

  lemma OneChar(front: string, s: string)
    requires s != []
    ensures front + s == front + [s[0]] + Dropped(s, 1)
  {
    DroppedIs(s, 1);
  }

  lemma Suffix(front: string, s: string)
    ensures Dropped(front + s, |front|) == s
  {
    DroppedIs(front + s, |front|);
  }

  lemma SuffixMore(front: string, s: string)
    ensures forall n: nat :: n <= |s| ==> Dropped(front + s, |front| + n) == Dropped(s, n)
  {
    forall n: nat | n <= |s| ensures Dropped(front + s, |front| + n) == Dropped(s, n) {
      Suffix(front, s);
      DroppedTwice(front + s, |front|, n);
    }
  }

  method SkipChar(it: Iterator, skip: char) returns (o: Outcome)
    requires it.Valid()
    modifies it
    ensures o ==
      if old(it.Rest()) == [] then IncompleteInput
      else if old(it.Rest())[0] != skip then ErrorInRequest else Fine
    ensures Advanced(it, if o.Fine? then 1 else 0)
  {
    if it.Eob() { return IncompleteInput; }
    var c := it.GetChar(' ');
    if c != skip { return ErrorInRequest; }
    Step(it);
    return Fine;
  }

  method SkipNewLine(it: Iterator) returns (o: Outcome)
    requires it.Valid()
    modifies it
    ensures var s := old(it.Rest());
      && o == (if |s| < 2 then IncompleteInput else if s[0] != '\r' || s[1] != '\n' then ErrorInRequest else Fine)
      && Advanced(it, if s == [] then 0 else if o.Fine? then 2 else 1)
  {
    ghost var s := it.Rest();
    DroppedIs(s, 1);
    if it.Eob() { return IncompleteInput; }
    var first := it.GetChar(' ');
    Step(it);
    if it.Eob() { return IncompleteInput; }
    var second := it.GetChar(' ');
    if first != '\r' || second != '\n' { return ErrorInRequest; }
    DroppedTwice(s, 1, 1);
    Step(it);
    return Fine;
  }

  /** How parseLine ends on the flat input `s`, and how far it gets. */
  function LineOutcome(s: string, junk: char): (Outcome, nat) {
    var n := LineLength(s);
    if n == |s| then (IncompleteInput, n)
    else if n + 1 == |s| then (if junk == '\n' then Fine else ErrorInRequest, n + 1)
    else if s[n + 1] == '\n' then (Fine, n + 2)
    else (ErrorInRequest, n + 1)
  }

  method ParseLine(it: Iterator, past: char) returns (o: Outcome, res: string)
    requires it.Valid()
    modifies it
    ensures var s := old(it.Rest());
      && o == LineOutcome(s, old(Junk(it.buffer, past))).0
      && Advanced(it, LineOutcome(s, old(Junk(it.buffer, past))).1)
      && res == s[..LineLength(s)]
  {
    ghost var s := it.Rest();
    res := [];
    if it.Eob() { return IncompleteInput, res; }
    while !it.Eob()
      invariant it.Valid() && s == res + it.Rest()
      invariant it.bytesRead == old(it.bytesRead) + |res|
      invariant LineLength(s) == |res| + LineLength(it.Rest())
      decreases |it.Rest()|
    {
      var c := it.GetChar(past);
      if c == '\r' {
        SuffixMore(res, it.Rest());
        o := EndLine(it, past);
        return o, res;
      }
      OneChar(res, it.Rest());
      res := res + [c];
      Step(it);
    }
    Suffix(res, it.Rest());
    o := IncompleteInput;
  }

  /** The end of parseLine, from the CR on. */
  method EndLine(it: Iterator, past: char) returns (o: Outcome)
    requires it.Valid() && it.Rest() != []
    modifies it
    ensures var s := old(it.Rest());
      var second := if |s| > 1 then s[1] else old(Junk(it.buffer, past));
      && o == (if second == '\n' then Fine else ErrorInRequest)
      && Advanced(it, if o.Fine? && |s| > 1 then 2 else 1)
  {
    ghost var s := it.Rest();
    DroppedIs(s, 1);
    DroppedTwice(s, 1, 1);
    Step(it);
    if it.GetChar(past) == '\n' {
      it.Next();
      o := Fine;
    } else {
      o := ErrorInRequest;
    }
  }

  /** The loop of parseRequest over the header lines. */
  method ParseHeaders(it: Iterator, past: char) returns (o: Outcome)
    requires it.Valid()
    modifies it
    ensures var h := Headers(old(it.Rest()), old(Junk(it.buffer, past)));
      Code(o) == h.rc && Advanced(it, h.read)
  {
    ghost var s, junk, read: nat := it.Rest(), Junk(it.buffer, past), 0;
    ghost var rest := s;
    while true
      invariant it.Valid() && Junk(it.buffer, past) == junk && it.bytesRead == old(it.bytesRead) + read
      invariant it.Rest() == rest && Pending(s, junk, read, rest)
      decreases |rest|
    {
      var more;
      ghost var n;
      o, more, n, rest := ParseHeader(it, past, s, read);
      read := read + n;
      if !more { break; }
    }
  }

  /** `rest` is what is left of `s` after some header lines. */
  ghost predicate Pending(s: string, junk: char, read: nat, rest: string) {
    && read + |rest| == |s| && rest == Dropped(s, read)
    && Headers(s, junk) == Scan(Headers(rest, junk).rc, read + Headers(rest, junk).read)
  }

  /** One more header line, or the end with code `rc`. */
  lemma PendingStep(s: string, junk: char, read: nat, rest: string, n: nat, rest': string, rc: int)
    requires Pending(s, junk, read, rest) && n <= |rest| && rest' == Dropped(rest, n)
    requires if rc < 2 then Headers(rest, junk) == Scan(rc, n)
             else Headers(rest, junk) == Scan(Headers(rest', junk).rc, n + Headers(rest', junk).read)
    ensures rest' == Dropped(s, read + n) && read + n <= |s|
    ensures if rc < 2 then Headers(s, junk) == Scan(rc, read + n) else Pending(s, junk, read + n, rest')
  {
    DroppedTwice(s, read, n);
  }

  /** One round of that loop: `s` is the input of all rounds, of which `read` bytes
      are read before and `n` in this one. */
  method ParseHeader(it: Iterator, past: char, ghost s: string, ghost read: nat)
    returns (o: Outcome, more: bool, ghost n: nat, ghost rest: string)
    requires it.Valid() && Pending(s, Junk(it.buffer, past), read, it.Rest())
    modifies it
    ensures it.Valid() && it.Rest() == rest == Dropped(s, read + n) && read + n <= |s|
    ensures it.bytesRead == old(it.bytesRead) + n && |rest| == |old(it.Rest())| - n
    ensures Junk(it.buffer, past) == old(Junk(it.buffer, past))
    ensures if more then n > 0 && Pending(s, old(Junk(it.buffer, past)), read + n, rest)
            else Headers(s, old(Junk(it.buffer, past))) == Scan(Code(o), read + n)
  {
    ghost var junk := Junk(it.buffer, past);
    rest := it.Rest();
    n := HeadersStep(rest, junk);
    var line;
    o, line := ParseLine(it, past);
    more := o.Fine? && |line| > 0;
    PendingStep(s, junk, read, rest, n, it.Rest(), if more then 2 else Code(o));
    rest := it.Rest();
  }

  /** One header line, or the last thing that parseLine says. */
  lemma HeadersStep(s: string, junk: char) returns (n: nat)
    ensures n == LineOutcome(s, junk).1 && n <= |s|
    ensures var o := LineOutcome(s, junk).0;
      && (o.Fine? ==> n > 0)
      && (if o.Fine? && LineLength(s) > 0
          then Headers(s, junk) == Scan(Headers(Dropped(s, n), junk).rc, n + Headers(Dropped(s, n), junk).read)
          else Headers(s, junk) == Scan(Code(o), n))
  {
    n := LineOutcome(s, junk).1;
    assert LineLength("") == 0;
    if n == |s| { DroppedIs(s, n); }
  }

  /** The version and the end of the request line. */
  method ParseVersion(it: Iterator) returns (o: Outcome, version: string)
    requires it.Valid()
    modifies it
    ensures var p := Version(old(it.Rest()));
      Code(o) == p.rc && version == p.request.version && Advanced(it, p.read)
  {
    ghost var s := it.Rest();
    ghost var w := WordLength(s);
    Parts(s, w);
    o, version := ParseString(it);
    if o.Fine? { o := SkipNewLine(it); }
  }

  /** parseString, then skipChar for a space. */
  method ParseField(it: Iterator) returns (o: Outcome, word: string)
    requires it.Valid()
    modifies it
    ensures var s := old(it.Rest()); var n := WordLength(s);
      && word == s[..n]
      && o == (if n == |s| then IncompleteInput else if s[n] != ' ' then ErrorInRequest else Fine)
      && Advanced(it, if o.Fine? then n + 1 else n)
  {
    Parts(it.Rest(), WordLength(it.Rest()));
    o, word := ParseString(it);
    if o.Fine? { o := SkipChar(it, ' '); }
  }

  /** The address behind its slash, and the rest of the request line. */
  method ParseAddress(it: Iterator) returns (o: Outcome, request: Request)
    requires it.Valid()
    modifies it
    ensures var p := AddressAndVersion(old(it.Rest()));
      Code(o) == p.rc && request == p.request && Advanced(it, p.read)
  {
    ghost var s := it.Rest();
    ghost var a := WordLength(s);
    var address, version;
    o, address := ParseField(it);
    request := Request("", address, "");
    if !o.Fine? { return; }
    Parts(s, a + 1);
    VersionOnly(Dropped(s, a + 1));
    o, version := ParseVersion(it);
    request := request.(version := version);
  }

  lemma VersionOnly(s: string)
    ensures Version(s).request == Request("", "", Version(s).request.version)
  {
  }

  /** How the method and the slash are read from `s`, and how far. */
  function VerbOutcome(s: string): (Outcome, nat) {
    var v := WordLength(s);
    if v == |s| then (IncompleteInput, v)
    else if s[v] != ' ' then (ErrorInRequest, v)
    else if v + 1 == |s| then (IncompleteInput, v + 1)
    else if s[v + 1] != '/' then (ErrorInRequest, v + 1)
    else (Fine, v + 2)
  }

  method ParseVerb(it: Iterator) returns (o: Outcome, verb: string)
    requires it.Valid()
    modifies it
    ensures var s := old(it.Rest());
      && verb == s[..WordLength(s)] && o == VerbOutcome(s).0 && Advanced(it, VerbOutcome(s).1)
  {
    ghost var s := it.Rest();
    o, verb := ParseField(it);
    if o.Fine? {
      Parts(s, WordLength(s) + 1);
      o := SkipChar(it, '/');
    }
  }

  lemma LineBehindVerb(s: string)
    ensures var (o, n) := VerbOutcome(s); var verb := s[..WordLength(s)];
      && n <= |s|
      && RequestLine(s) == if !o.Fine? then Parsed(Code(o), Request(verb, "", ""), n) else
           var p := AddressAndVersion(Dropped(s, n));
           Parsed(p.rc, p.request.(verb := verb), n + p.read)
  {
  }

  method ParseFirstLine(it: Iterator) returns (o: Outcome, request: Request)
    requires it.Valid()
    modifies it
    ensures var p := RequestLine(old(it.Rest()));
      Code(o) == p.rc && request == p.request && Advanced(it, p.read)
  {
    ghost var s := it.Rest();
    var verb;
    LineBehindVerb(s);
    o, verb := ParseVerb(it);
    request := Request(verb, "", "");
    if o.Fine? {
      Parts(s, VerbOutcome(s).1);
      o, request := ParseAddress(it);
      request := request.(verb := verb);
    }
  }

  /** parseRequest: the code, the fields and the bytes read are a function of the
      flat unread bytes, and of the byte behind them if they are dangling. */
  method ParseRequestFrom(it: Iterator, past: char) returns (rc: int, request: Request)
    requires it.Valid()
    modifies it
    ensures var p := ParseRequest(old(it.Rest()), old(Junk(it.buffer, past)));
      rc == p.rc && request == p.request && Advanced(it, p.read)
  {
    ghost var s, junk := it.Rest(), Junk(it.buffer, past);
    ghost var n := RequestLine(s).read;
    var o;
    DroppedTwice(s, n, Headers(Dropped(s, n), junk).read);
    o, request := ParseFirstLine(it);
    if o.Fine? { o := ParseHeaders(it, past); }
    rc := Code(o);
  }
}
