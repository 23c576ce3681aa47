/**
 The printer of http_request.cpp, its round trip through the parser, and the
 read loop of http_connection.cpp over a stream that arrives in fragments.
 */
module HttpStream {
  import opened Bytes
  import opened Http
  import opened HttpGrammar

  // ----- printing -----

  /** What `c_str()` shows of a string: up to the first NUL. */
  function CStr(s: string): (r: string)
    ensures r <= s && (r == s <==> '\0' !in s)
  {
    if s == [] || s[0] == '\0' then [] else
      assert s == [s[0]] + s[1..];
      [s[0]] + CStr(s[1..])
  }

  /** The cut is at the first NUL. */
  lemma {:induction false} CutAtNul(s: string)
    ensures CStr(s) <= s && '\0' !in CStr(s) && (|CStr(s)| < |s| ==> s[|CStr(s)|] == '\0')
  {
    if s != [] && s[0] != '\0' {
      CutAtNul(s[1..]);
      assert s == [s[0]] + s[1..];
    }
  }

  function Print(r: Request): string {
    CStr(r.verb) + (" " + (CStr(r.address) + (" " + (CStr(r.version) + "\r\n\r\n"))))
  }

  /** The request line as it is printed, and what follows. */
  function PrintLine(r: Request, tail: string): string {
    CStr(r.verb) + ([' '] + (CStr(r.address) + ([' '] + (CStr(r.version) + NewLine(tail)))))
  }

  /** The printed request line with header lines and an empty line behind it. */
  function PrintWith(r: Request, lines: seq<string>): string {
    PrintLine(r, LinesText(lines, ""))
  }

  predicate Clean(s: string) {
    ' ' !in s && '\r' !in s && '\0' !in s
  }

  /** The requests that survive printing and parsing. */
  predicate Printable(r: Request) {
    Clean(r.verb) && Clean(r.address) && Clean(r.version) && r.address != "" && r.address[0] == '/'
  }

  /** The request as the parser delivers it: the address without its slash. */
  function Stripped(r: Request): Request
    requires r.address != ""
  {
    r.(address := r.address[1..])
  }

  /** The fields of `r` are read back, the address without its slash. */
  predicate LineRecovers(p: Parsed, r: Request) {
    && p.rc == 0 && p.request.verb == r.verb && "/" + p.request.address == r.address
    && p.request.version == r.version
  }

  /** A field followed by its separator is read back unless it is not clean. */
  lemma FieldOf(f: string, c: char, t: string)
    requires Stops(c)
    ensures var s := CStr(f) + ([c] + t); var n := WordLength(s);
      && n <= |CStr(f)| < |s| && (s[..n] == f <==> Clean(f))
      && (Clean(f) ==> CStr(f) == f && n == |f| && s[n] == c && Dropped(s, n + 1) == t)
  {
    var w := CStr(f);
    var s := w + ([c] + t);
    var n := WordLength(s);
    WordHasNoStop(s);
    assert s[|w|] == c;
    DroppedIs(s, |w| + 1);
    assert s[|w| + 1..] == t;
    if s[..n] == f {
      assert n == |f| && w == f;
      forall i | 0 <= i < |f| ensures !Stops(f[i]) { assert f[i] == s[i]; }
    }
    if Clean(f) {
      assert w == f && forall i :: 0 <= i < |f| ==> s[i] == f[i];
    }
  }

  lemma VersionIsClean(f: string, tail: string)
    ensures Version(CStr(f) + NewLine(tail)).request.version == f ==> Clean(f)
  {
    FieldOf(f, '\r', ['\n'] + tail);
  }

  lemma AddressIsClean(f: string, behind: string)
    ensures
      var p := AddressAndVersion(CStr(f) + ([' '] + behind));
      p.rc == 0 && p.request.address == f ==> Clean(f) && p.request.version == Version(behind).request.version
  {
    FieldOf(f, ' ', behind);
  }

  lemma VerbIsClean(f: string, behind: string)
    ensures
      var p := RequestLine(CStr(f) + ([' '] + behind));
      p.rc == 0 && p.request.verb == f ==>
        && Clean(f) && behind != "" && behind[0] == '/'
        && var q := AddressAndVersion(Dropped(behind, 1)); q.rc == 0 && p.request == q.request.(verb := f)
  {
    FieldOf(f, ' ', behind);
    if Clean(f) {
      Parts(CStr(f) + ([' '] + behind), |f| + 1);
    }
  }

  lemma OnlyPrintable(r: Request, tail: string)
    requires LineRecovers(RequestLine(PrintLine(r, tail)), r)
    ensures Printable(r)
  {
    var rest := CStr(r.version) + NewLine(tail);
    VerbIsClean(r.verb, CStr(r.address) + ([' '] + rest));
    AfterFirst(r.address, [' '] + rest);
    AddressIsClean(r.address[1..], rest);
    VersionIsClean(r.version, tail);
  }

  lemma AfterFirst(f: string, t: string)
    requires f != "" && f[0] == '/'
    ensures CStr(f) + t != "" && (CStr(f) + t)[0] == '/' && Dropped(CStr(f) + t, 1) == CStr(f[1..]) + t
    ensures f == "/" + f[1..] && (Clean(f) <==> Clean(f[1..]))
  {
    assert f == "/" + f[1..];
    assert CStr(f) == ['/'] + CStr(f[1..]);
    Assoc(['/'], CStr(f[1..]), t);
    DroppedIs(CStr(f) + t, 1);
  }

  lemma CleanIsWord(f: string)
    requires Clean(f)
    ensures IsWord(f) && CStr(f) == f
  {
    forall i | 0 <= i < |f| ensures !Stops(f[i]) { assert f[i] in f; }
  }

  /** The request line of a printable request is that of a message. */
  lemma PrintIsMessage(r: Request, tail: string)
    requires Printable(r)
    ensures IsRequest(Stripped(r)) && PrintLine(r, tail) == LineText(Stripped(r), tail)
  {
    CleanIsWord(r.verb);
    CleanIsWord(r.address);
    CleanIsWord(r.version);
    assert r.address == ['/'] + r.address[1..];
    AfterFirst(r.address, "");
    CleanIsWord(r.address[1..]);
    Assoc(['/'], r.address[1..], [' '] + (r.version + NewLine(tail)));
  }

  lemma PrintLineThen(r: Request, mid: string, tail: string)
    ensures PrintLine(r, mid) + tail == PrintLine(r, mid + tail)
  {
    var v, a, w, e := CStr(r.verb), CStr(r.address), CStr(r.version), NewLine(mid);
    Assoc(v, [' '] + (a + ([' '] + (w + e))), tail);
    Assoc([' '], a + ([' '] + (w + e)), tail);
    Assoc(a, [' '] + (w + e), tail);
    Assoc([' '], w + e, tail);
    Assoc(w, e, tail);
    NewLineThen(mid, tail);
  }

  /** toBuffer prints no header lines. */
  lemma PrintIsBare(r: Request)
    ensures Print(r) == PrintWith(r, [])
  {
    assert "\r\n\r\n" == NewLine(NewLine(""));
  }

  /** The request `r` is read back, and exactly its printed form with these header
      lines is consumed. */
  predicate Recovers(p: Parsed, r: Request, lines: seq<string>) {
    LineRecovers(p, r) && p.read == |PrintWith(r, lines)|
  }

  /** Parsing what was printed, with any header lines and anything behind them, gives
      back the request and stops right behind the empty line, if and only if the
      request is printable. */
  lemma RoundTrip(r: Request, lines: seq<string>, tail: string, junk: char)
    requires forall i :: 0 <= i < |lines| ==> IsLine(lines[i])
    ensures Recovers(ParseRequest(PrintWith(r, lines) + tail, junk), r, lines) <==> Printable(r)
  {
    var s := PrintWith(r, lines) + tail;
    if Printable(r) {
      var m := Message(Stripped(r), lines);
      PrintIsMessage(r, LinesText(lines, ""));
      MessageParses(m, tail, junk);
    }
    if Recovers(ParseRequest(s, junk), r, lines) {
      PrintLineThen(r, LinesText(lines, ""), tail);
      OnlyPrintable(r, LinesText(lines, "") + tail);
    }
  }

  // ----- the read loop -----

  /** The requests handled, whether reading goes on, and the bytes left over. */
  datatype Loop = Loop(handled: seq<Request>, more: bool, rest: string)

  /** handleRequest stops the connection for this address only. */
  predicate Accepts(r: Request) {
    r.address != "quit"
  }

  /** What readDone makes of the unread input. */
  function ReadLoop(s: string, junk: char): (l: Loop)
    ensures |l.rest| <= |s|
    decreases |s|
  {
    var p := ParseRequest(s, junk);
    if p.rc != 0 then Loop([], p.rc > 0, s)
    else if !Accepts(p.request) then Loop([p.request], false, Dropped(s, p.read))
    else Before([p.request], ReadLoop(Dropped(s, p.read), junk))
  }

  function Before(done: seq<Request>, l: Loop): Loop {
    l.(handled := done + l.handled)
  }

  /** Somewhere the loop meets input that ends between CR and LF. */
  predicate Dangles(s: string)
    decreases |s|
  {
    var p := ParseRequest(s, '\n');
    Dangling(s) || (p.rc == 0 && Accepts(p.request) && Dangles(Dropped(s, p.read)))
  }

  lemma SameParse(s: string, j: char, k: char)
    requires !Dangling(s)
    ensures ParseRequest(s, j) == ParseRequest(s, k)
  {
    JunkMattersIffDangling(s);
  }

  lemma BeforeTwice(a: seq<Request>, b: seq<Request>, l: Loop)
    ensures Before(a, Before(b, l)) == Before(a + b, l)
  {
    assert a + (b + l.handled) == (a + b) + l.handled;
  }

  /** The loop over more input `whole`, given what it does with `part` first. */
  predicate GoesOn(part: Loop, whole: Loop, t: string, k: char) {
    if part.more then whole == Before(part.handled, ReadLoop(part.rest + t, k))
    else whole == part.(rest := part.rest + t)
  }

  lemma GoesOnBefore(done: seq<Request>, part: Loop, whole: Loop, t: string, k: char)
    requires GoesOn(part, whole, t, k)
    ensures GoesOn(Before(done, part), Before(done, whole), t, k)
  {
    if part.more { BeforeTwice(done, part.handled, ReadLoop(part.rest + t, k)); }
  }

  /** The loop over more input: first what it did, then the rest with the new
      bytes behind it; once it stopped, it stops in the same place. */
  lemma {:induction false} LoopGoesOn(s: string, t: string, j: char, k: char)
    requires !Dangles(s)
    ensures GoesOn(ReadLoop(s, j), ReadLoop(s + t, k), t, k)
    decreases |s|
  {
    var p := ParseRequest(s, j);
    SameParse(s, j, '\n');
    if p.rc != 1 { VerdictIsFinal(s, t, j, k); }
    if p.rc == 0 {
      TailSplit(s, t, p.read);
      if Accepts(p.request) {
        LoopGoesOn(Dropped(s, p.read), t, j, k);
        GoesOnBefore([p.request], ReadLoop(Dropped(s, p.read), j), ReadLoop(Dropped(s, p.read) + t, k), t, k);
      }
    }
  }

  lemma {:induction false} LoopIgnoresJunk(s: string, j: char, k: char)
    requires !Dangles(s)
    ensures ReadLoop(s, j) == ReadLoop(s, k)
    decreases |s|
  {
    var p := ParseRequest(s, j);
    SameParse(s, j, '\n');
    SameParse(s, k, '\n');
    if p.rc == 0 && Accepts(p.request) { LoopIgnoresJunk(Dropped(s, p.read), j, k); }
  }

  /** readDone after each of the fragments, as they arrive behind `rest`; at each
      of these moments some byte lies behind the input. */
  function Feed(rest: string, fragments: seq<string>, junks: seq<char>): Loop
    requires |junks| == |fragments|
    decreases |fragments|
  {
    if fragments == [] then Loop([], true, rest)
    else
      var l := ReadLoop(rest + fragments[0], junks[0]);
      if l.more then Before(l.handled, Feed(l.rest, fragments[1..], junks[1..])) else l
  }

  /** No fragment boundary falls between CR and LF of a header or blank line. */
  predicate CleanCuts(rest: string, fragments: seq<string>)
    decreases |fragments|
  {
    |fragments| <= 1 || (!Dangles(rest + fragments[0]) && CleanCuts(rest + fragments[0], fragments[1..]))
  }

  lemma {:induction false} CleanRest(s: string, t: string, j: char)
    requires ReadLoop(s, j).more && !Dangles(s)
    ensures Dangles(s + t) <==> Dangles(ReadLoop(s, j).rest + t)
    decreases |s|
  {
    var p := ParseRequest(s, j);
    SameParse(s, j, '\n');
    if p.rc == 0 {
      VerdictIsFinal(s, t, j, '\n');
      TailSplit(s, t, p.read);
      CleanRest(Dropped(s, p.read), t, j);
    }
  }

  /** What follows is cut as cleanly behind the rest as behind all input. */
  lemma {:induction false} CutsOfRest(s: string, rest: string, t: string, fragments: seq<string>, j: char)
    requires ReadLoop(s, j).more && !Dangles(s) && rest == ReadLoop(s, j).rest && CleanCuts(s + t, fragments)
    ensures CleanCuts(rest + t, fragments)
    decreases |fragments|
  {
    if |fragments| > 1 {
      var u := t + fragments[0];
      Assoc(s, t, fragments[0]);
      Assoc(rest, t, fragments[0]);
      CleanRest(s, u, j);
      CutsOfRest(s, rest, u, fragments[1..], j);
    }
  }

  /** The same requests and the same decision; a loop that goes on leaves the same
      bytes, one that stopped may not have seen all of them. */
  predicate Agrees(fed: Loop, whole: Loop) {
    && fed.handled == whole.handled && fed.more == whole.more
    && fed.rest <= whole.rest && (fed.more ==> fed.rest == whole.rest)
  }

  lemma AgreesBefore(done: seq<Request>, fed: Loop, whole: Loop)
    requires Agrees(fed, whole)
    ensures Agrees(Before(done, fed), Before(done, whole))
  {
  }

  /** How the stream is cut into fragments does not matter: as long as no cut
      falls between CR and LF of a header or blank line, the requests handled,
      the decision to go on and the bytes left over are those of the whole
      stream in one piece. */
  lemma {:induction false} FragmentsDoNotMatter(rest: string, fragments: seq<string>, junks: seq<char>)
    requires fragments != [] && |junks| == |fragments| && CleanCuts(rest, fragments)
    ensures Agrees(Feed(rest, fragments, junks), ReadLoop(rest + Flat(fragments), junks[|junks| - 1]))
    decreases |fragments|, 1
  {
    var s, t := rest + fragments[0], Flat(fragments[1..]);
    Assoc(rest, fragments[0], t);
    if |fragments| == 1 {
      assert s + t == s;
      FeedOne(rest, fragments, junks);
    } else if ReadLoop(s, junks[0]).more {
      FeedRest(rest, s, fragments, junks);
    } else {
      LoopGoesOn(s, t, junks[0], junks[|junks| - 1]);
    }
  }

  lemma FeedOne(rest: string, fragments: seq<string>, junks: seq<char>)
    requires |fragments| == |junks| == 1
    ensures Feed(rest, fragments, junks) == ReadLoop(rest + fragments[0], junks[0])
  {
    var l := ReadLoop(rest + fragments[0], junks[0]);
    assert Feed(l.rest, fragments[1..], junks[1..]) == Loop([], true, l.rest);
    assert l.handled + [] == l.handled;
  }

  /** The step of FragmentsDoNotMatter behind a first fragment. */
  lemma {:induction false} FeedRest(rest: string, s: string, fragments: seq<string>, junks: seq<char>)
    requires |fragments| == |junks| > 1 && s == rest + fragments[0] && CleanCuts(rest, fragments)
    requires ReadLoop(s, junks[0]).more
    ensures Agrees(Feed(rest, fragments, junks), ReadLoop(s + Flat(fragments[1..]), junks[|junks| - 1]))
    decreases |fragments|, 0
  {
    var l := ReadLoop(s, junks[0]);
    LoopGoesOn(s, Flat(fragments[1..]), junks[0], junks[|junks| - 1]);
    assert s + "" == s && l.rest + "" == l.rest;
    CutsOfRest(s, l.rest, "", fragments[1..], junks[0]);
    FragmentsDoNotMatter(l.rest, fragments[1..], junks[1..]);
    AgreesBefore(l.handled, Feed(l.rest, fragments[1..], junks[1..]),
                 ReadLoop(l.rest + Flat(fragments[1..]), junks[|junks| - 1]));
  }

  // ----- pipelining -----

  function RenderAll(ms: seq<Message>): string {
    if ms == [] then [] else Render(ms[0]) + RenderAll(ms[1..])
  }

  function Requests(ms: seq<Message>): seq<Request> {
    if ms == [] then [] else [ms[0].request] + Requests(ms[1..])
  }

  /** Messages that the loop handles without stopping. */
  predicate Sendable(ms: seq<Message>) {
    forall i :: 0 <= i < |ms| ==> WellFormed(ms[i]) && Accepts(ms[i].request)
  }

  /** Any number of messages are handled, in order; the loop goes on behind them. */
  lemma {:induction false} MessagesAreHandled(ms: seq<Message>, rest: string, junk: char)
    requires Sendable(ms)
    ensures ReadLoop(RenderAll(ms) + rest, junk) == Before(Requests(ms), ReadLoop(rest, junk))
    decreases |ms|
  {
    var l := ReadLoop(rest, junk);
    if ms == [] {
      assert RenderAll(ms) + rest == rest && [] + l.handled == l.handled;
    } else {
      var behind := RenderAll(ms[1..]) + rest;
      Assoc(Render(ms[0]), RenderAll(ms[1..]), rest);
      assert WellFormed(ms[0]) && Accepts(ms[0].request);
      FirstIsHandled(ms[0], behind, junk);
      MessagesAreHandled(ms[1..], rest, junk);
      BeforeTwice([ms[0].request], Requests(ms[1..]), l);
    }
  }

  lemma FirstIsHandled(m: Message, behind: string, junk: char)
    requires WellFormed(m)
    ensures ReadLoop(Render(m) + behind, junk) ==
            if Accepts(m.request) then Before([m.request], ReadLoop(behind, junk)) else Loop([m.request], false, behind)
  {
    MessageParses(m, behind, junk);
    BehindMessage(m, behind);
  }

  lemma BehindMessage(m: Message, behind: string)
    ensures Dropped(Render(m) + behind, |Render(m)|) == behind
  {
    DroppedIs(Render(m) + behind, |Render(m)|);
  }

  /** Any number of messages followed by the start of another one, cut anywhere but
      between CR and LF of a header line or the empty line: the loop handles exactly
      the complete ones, in order, leaves exactly the start of the last one, and goes
      on reading. */
  lemma Pipelining(ms: seq<Message>, last: Message, k: nat, junk: char)
    requires Sendable(ms) && WellFormed(last) && k < |Render(last)| && !CutsNewLine(last, k)
    ensures ReadLoop(RenderAll(ms) + Render(last)[..k], junk) == Loop(Requests(ms), true, Render(last)[..k])
  {
    MessagesAreHandled(ms, Render(last)[..k], junk);
    CutIsIncomplete(last, k, junk);
  }

  /** A message that asks for "quit" is the last one that is handled: reading stops,
      and whatever follows is left. */
  lemma QuitEndsPipeline(ms: seq<Message>, quit: Message, tail: string, junk: char)
    requires Sendable(ms) && WellFormed(quit) && quit.request.address == "quit"
    ensures ReadLoop(RenderAll(ms) + (Render(quit) + tail), junk) == Loop(Requests(ms) + [quit.request], false, tail)
  {
    MessagesAreHandled(ms, Render(quit) + tail, junk);
    FirstIsHandled(quit, tail, junk);
  }

  /** What the loop did: `ms` are the messages that it handled, all of them accepted
      unless one of them ended the loop, and the rest of the input follows them. */
  ghost predicate Explains(ms: seq<Message>, s: string, l: Loop) {
    && s == RenderAll(ms) + l.rest && Requests(ms) == l.handled
    && (forall i :: 0 <= i < |ms| ==> WellFormed(ms[i]))
    && (forall i :: 0 <= i < |ms| - 1 ==> Accepts(ms[i].request))
    && (l.more ==> Sendable(ms) && (IsStart(l.rest) || EndsInSpace(l.rest)))
    && (!l.more && Sendable(ms) ==>
          !IsStart(l.rest) && !EndsInSpace(l.rest) && !exists m :: StartsWith(l.rest, m))
  }

  /** Whatever the input: what the loop handles are the requests of the messages that
      the input starts with.  It goes on only when the rest is the start of another
      one, or ends in a space behind a version; it stops only behind a "quit", or in
      front of what is not the start of any message. */
  lemma {:induction false} LoopIsExplained(s: string, junk: char) returns (ms: seq<Message>)
    requires !Dangles(s)
    ensures Explains(ms, s, ReadLoop(s, junk))
    decreases |s|
  {
    if ParseRequest(s, junk).rc != 0 {
      ms := [];
      NothingHandled(s, junk);
    } else {
      var m, behind := FirstMessage(s, junk);
      if Accepts(m.request) {
        var more := LoopIsExplained(behind, junk);
        ms := [m] + more;
        ExplainedBefore(m, more, s, behind, ReadLoop(behind, junk));
      } else {
        ms := [m];
        ExplainedQuit(m, s, behind);
      }
    }
  }

  lemma FirstMessage(s: string, junk: char) returns (m: Message, behind: string)
    requires ParseRequest(s, junk).rc == 0 && !Dangles(s)
    ensures WellFormed(m) && s == Render(m) + behind && |behind| < |s|
    ensures ReadLoop(s, junk) ==
            if Accepts(m.request) then Before([m.request], ReadLoop(behind, junk)) else Loop([m.request], false, behind)
    ensures Accepts(m.request) ==> !Dangles(behind)
  {
    var p := ParseRequest(s, junk);
    SameParse(s, junk, '\n');
    m := ParsedIsMessage(s, junk);
    behind := Dropped(s, p.read);
    SplitAt(s, p.read);
    assert s[..p.read] == Render(m);
  }

  lemma NothingHandled(s: string, junk: char)
    requires ParseRequest(s, junk).rc != 0 && !Dangling(s)
    ensures Explains([], s, ReadLoop(s, junk))
  {
    ParserReadsGrammar(s, junk);
    assert RenderAll([]) + s == s;
  }

  lemma ExplainedQuit(m: Message, s: string, behind: string)
    requires s == Render(m) + behind && WellFormed(m) && !Accepts(m.request)
    ensures Explains([m], s, Loop([m.request], false, behind))
  {
    var ms := [m];
    assert ms[1..] == [] && Render(m) + [] == Render(m) && [m.request] + [] == [m.request];
    assert !Accepts(ms[0].request);
  }

  lemma ExplainedBefore(m: Message, ms: seq<Message>, s: string, behind: string, l: Loop)
    requires Explains(ms, behind, l) && s == Render(m) + behind && WellFormed(m) && Accepts(m.request)
    ensures Explains([m] + ms, s, Before([m.request], l))
  {
    var all := [m] + ms;
    assert all[1..] == ms;
    Assoc(Render(m), RenderAll(ms), l.rest);
    assert Sendable(all) ==> Sendable(ms) by {
      if Sendable(all) {
        forall i | 0 <= i < |ms| ensures WellFormed(ms[i]) && Accepts(ms[i].request) { assert ms[i] == all[i + 1]; }
      }
    }
    forall i | 0 <= i < |all| - 1 ensures Accepts(all[i].request) {
      if i > 0 { assert all[i] == ms[i - 1]; }
    }
  }
}
