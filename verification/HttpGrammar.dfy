/**
 The requests that http_parser.cpp reads, as a grammar: a request line, any number
 of header lines, and an empty line.  The parser is the only reader of this grammar:
 it succeeds exactly on input that starts with a message, and then says which.
 */
module HttpGrammar {
  import opened Bytes
  import opened Http

  /** A request, its address without the slash, and its header lines. */
  datatype Message = Message(request: Request, lines: seq<string>)

  predicate IsWord(s: string) {
    forall i :: 0 <= i < |s| ==> !Stops(s[i])
  }

  predicate IsLine(s: string) {
    s != [] && forall i :: 0 <= i < |s| ==> s[i] != '\r'
  }

  predicate IsRequest(r: Request) {
    IsWord(r.verb) && IsWord(r.address) && IsWord(r.version)
  }

  predicate WellFormed(m: Message) {
    IsRequest(m.request) && forall i :: 0 <= i < |m.lines| ==> IsLine(m.lines[i])
  }

  function NewLine(tail: string): string {
    ['\r'] + (['\n'] + tail)
  }

  /** The request line, and what follows. */
  function LineText(r: Request, tail: string): string {
    r.verb + ([' '] + (['/'] + (r.address + ([' '] + (r.version + NewLine(tail))))))
  }

  /** The header lines and the empty line, and what follows. */
  function LinesText(lines: seq<string>, tail: string): string {
    if lines == [] then NewLine(tail) else lines[0] + NewLine(LinesText(lines[1..], tail))
  }

  function Text(m: Message, tail: string): string {
    LineText(m.request, LinesText(m.lines, tail))
  }

  function Render(m: Message): string {
    Text(m, "")
  }

  // ----- a text and what follows -----

  lemma Assoc(a: string, b: string, c: string)
    ensures (a + b) + c == a + (b + c)
  {
  }

  lemma NewLineThen(mid: string, tail: string)
    ensures NewLine(mid) + tail == NewLine(mid + tail)
  {
    Assoc(['\r'], ['\n'] + mid, tail);
    Assoc(['\n'], mid, tail);
  }

  lemma LineTextThen(r: Request, mid: string, tail: string)
    ensures LineText(r, mid) + tail == LineText(r, mid + tail)
  {
    var e := NewLine(mid);
    Assoc(r.verb, [' '] + (['/'] + (r.address + ([' '] + (r.version + e)))), tail);
    Assoc([' '], ['/'] + (r.address + ([' '] + (r.version + e))), tail);
    Assoc(['/'], r.address + ([' '] + (r.version + e)), tail);
    Assoc(r.address, [' '] + (r.version + e), tail);
    Assoc([' '], r.version + e, tail);
    Assoc(r.version, e, tail);
    NewLineThen(mid, tail);
  }

  lemma {:induction false} LinesTextThen(lines: seq<string>, mid: string, tail: string)
    ensures LinesText(lines, mid) + tail == LinesText(lines, mid + tail)
  {
    if lines == [] {
      NewLineThen(mid, tail);
    } else {
      Assoc(lines[0], NewLine(LinesText(lines[1..], mid)), tail);
      NewLineThen(LinesText(lines[1..], mid), tail);
      LinesTextThen(lines[1..], mid, tail);
    }
  }

  lemma RenderThen(m: Message, tail: string)
    ensures Render(m) + tail == Text(m, tail)
  {
    assert "" + tail == tail;
    LineTextThen(m.request, LinesText(m.lines, ""), tail);
    LinesTextThen(m.lines, "", tail);
  }

  // ----- the parser reads a message -----

  lemma WordOf(w: string, c: char, t: string)
    requires IsWord(w) && Stops(c)
    ensures var s := w + ([c] + t);
      WordLength(s) == |w| < |s| && s[..|w|] == w && s[|w|] == c && Dropped(s, |w| + 1) == t
  {
    var s := w + ([c] + t);
    WordHasNoStop(s);
    assert s[|w|] == c;
    forall i | 0 <= i < |w| ensures !Stops(s[i]) { assert s[i] == w[i]; }
    DroppedIs(s, |w| + 1);
  }

  lemma VersionOf(w: string, tail: string)
    requires IsWord(w)
    ensures Version(w + NewLine(tail)) == Parsed(0, Request("", "", w), |w| + 2)
  {
    WordOf(w, '\r', ['\n'] + tail);
  }

  lemma AddressOf(w: string, v: string, tail: string)
    requires IsWord(w) && IsWord(v)
    ensures AddressAndVersion(w + ([' '] + (v + NewLine(tail)))) == Parsed(0, Request("", w, v), |w| + 1 + |v| + 2)
  {
    WordOf(w, ' ', v + NewLine(tail));
    VersionOf(v, tail);
  }

  /** How long a request line is. */
  function LineSize(r: Request): nat {
    |r.verb| + 2 + |r.address| + 1 + |r.version| + 2
  }

  lemma LineOf(r: Request, tail: string)
    requires IsRequest(r)
    ensures RequestLine(LineText(r, tail)) == Parsed(0, r, LineSize(r))
    ensures Dropped(LineText(r, tail), LineSize(r)) == tail
  {
    var rest := r.address + ([' '] + (r.version + NewLine(tail)));
    WordOf(r.verb, ' ', ['/'] + rest);
    AfterSlash(r.verb, rest);
    AddressOf(r.address, r.version, tail);
    LineEnd(r, tail);
  }

  lemma AfterSlash(w: string, rest: string)
    ensures var s := w + ([' '] + (['/'] + rest)); s[|w| + 1] == '/' && Dropped(s, |w| + 2) == rest
  {
    DroppedIs(w + ([' '] + (['/'] + rest)), |w| + 2);
  }

  lemma LineEnd(r: Request, tail: string)
    ensures Dropped(LineText(r, tail), LineSize(r)) == tail
  {
    var s := LineText(r, "");
    LineTextThen(r, "", tail);
    assert "" + tail == tail && |s| == LineSize(r);
    DroppedIs(s + tail, |s|);
  }

  lemma HeaderLine(l: string, tail: string)
    requires forall i :: 0 <= i < |l| ==> l[i] != '\r'
    ensures var s := l + NewLine(tail);
      LineLength(s) == |l| && |l| + 1 < |s| && s[|l| + 1] == '\n' && Dropped(s, |l| + 2) == tail
  {
    var s := l + NewLine(tail);
    LineSplit(l, NewLine(tail));
    DroppedIs(s, |l| + 2);
  }

  lemma {:induction false} LinesOf(lines: seq<string>, tail: string, junk: char)
    requires forall i :: 0 <= i < |lines| ==> IsLine(lines[i])
    ensures Headers(LinesText(lines, tail), junk) == Scan(0, |LinesText(lines, "")|)
    ensures !DanglingHeaders(LinesText(lines, tail))
  {
    if lines == [] {
      HeaderLine([], tail);
      assert [] + NewLine(tail) == NewLine(tail);
    } else {
      assert IsLine(lines[0]);
      HeaderLine(lines[0], LinesText(lines[1..], tail));
      LinesOf(lines[1..], tail, junk);
    }
  }

  /** A message with any header lines, and with anything behind it, is parsed: the
      request is read, and everything up to the empty line and no more. */
  lemma MessageParses(m: Message, tail: string, junk: char)
    requires WellFormed(m)
    ensures ParseRequest(Render(m) + tail, junk) == Parsed(0, m.request, |Render(m)|)
    ensures !Dangling(Render(m) + tail)
  {
    RenderThen(m, tail);
    LineOf(m.request, LinesText(m.lines, tail));
    LinesOf(m.lines, tail, junk);
  }

  // ----- what the parser reads is a message -----

  lemma Peeled(s: string, n: nat)
    requires n < |s|
    ensures Dropped(s, n) == [s[n]] + Dropped(s, n + 1)
  {
    DroppedIs(s, n);
    DroppedIs(s, n + 1);
  }

  lemma SplitAt(s: string, n: nat)
    requires n <= |s|
    ensures s == s[..n] + Dropped(s, n)
  {
    DroppedIs(s, n);
  }

  /** The first word, what ends it, and what follows. */
  lemma WordSound(s: string) returns (w: string, rest: string)
    requires WordLength(s) < |s|
    ensures |w| == WordLength(s) && w == s[..|w|] && IsWord(w) && rest == Dropped(s, |w| + 1)
    ensures s == w + ([s[|w|]] + rest)
  {
    var n := WordLength(s);
    w, rest := s[..n], Dropped(s, n + 1);
    WordHasNoStop(s);
    Broken(s, n);
  }

  lemma Broken(s: string, n: nat)
    requires n < |s|
    ensures s == s[..n] + ([s[n]] + Dropped(s, n + 1))
  {
    SplitAt(s, n);
    Peeled(s, n);
  }

  lemma VersionSound(s: string) returns (w: string, tail: string)
    requires Version(s).rc == 0
    ensures IsWord(w) && s == w + NewLine(tail)
  {
    var rest;
    w, rest := WordSound(s);
    Peeled(s, |w| + 1);
    tail := Dropped(s, |w| + 2);
  }

  lemma AddressSound(s: string) returns (a: string, w: string, tail: string)
    requires AddressAndVersion(s).rc == 0
    ensures IsWord(a) && IsWord(w) && s == a + ([' '] + (w + NewLine(tail)))
  {
    var rest;
    a, rest := WordSound(s);
    w, tail := VersionSound(rest);
  }

  lemma VerbSound(s: string) returns (verb: string, rest: string)
    requires WordLength(s) + 1 < |s| && s[WordLength(s)] == ' ' && s[WordLength(s) + 1] == '/'
    ensures |verb| == WordLength(s) && IsWord(verb) && rest == Dropped(s, |verb| + 2)
    ensures s == verb + ([' '] + (['/'] + rest))
  {
    var behind;
    verb, behind := WordSound(s);
    Peeled(s, |verb| + 1);
    rest := Dropped(s, |verb| + 2);
  }

  lemma LineSound(s: string) returns (r: Request, tail: string)
    requires RequestLine(s).rc == 0
    ensures IsRequest(r) && s == LineText(r, tail)
  {
    var verb, rest := VerbSound(s);
    var a, w;
    a, w, tail := AddressSound(rest);
    r := Request(verb, a, w);
  }

  lemma {:induction false} LineHasNoReturn(s: string)
    ensures forall i :: 0 <= i < LineLength(s) ==> s[i] != '\r'
  {
    if s != [] && s[0] != '\r' { LineHasNoReturn(s[1..]); }
  }

  lemma HeaderSound(s: string) returns (l: string, rest: string)
    requires LineLength(s) + 1 < |s| && s[LineLength(s) + 1] == '\n'
    ensures |l| == LineLength(s) && rest == Dropped(s, |l| + 2) && s == l + NewLine(rest)
    ensures forall i :: 0 <= i < |l| ==> l[i] != '\r'
  {
    var n := LineLength(s);
    LineHasNoReturn(s);
    l, rest := s[..n], Dropped(s, n + 2);
    Broken(s, n);
    Peeled(s, n + 1);
  }

  lemma {:induction false} LinesSound(s: string, junk: char) returns (lines: seq<string>, tail: string)
    requires Headers(s, junk).rc == 0 && !DanglingHeaders(s)
    ensures (forall i :: 0 <= i < |lines| ==> IsLine(lines[i])) && s == LinesText(lines, tail)
    decreases |s|
  {
    var l, rest := HeaderSound(s);
    if l == "" {
      lines, tail := [], rest;
      assert "" + NewLine(rest) == NewLine(rest);
    } else {
      var more;
      more, tail := LinesSound(rest, junk);
      lines := [l] + more;
      assert lines[1..] == more;
    }
  }

  /** What was parsed is a message, and its request is the one that is delivered. */
  lemma ParsedIsMessage(s: string, junk: char) returns (m: Message)
    requires ParseRequest(s, junk).rc == 0 && !Dangling(s)
    ensures StartsWith(s, m) && ParseRequest(s, junk) == Parsed(0, m.request, |Render(m)|)
  {
    var r, behind := LineSound(s);
    LineOf(r, behind);
    var lines, tail := LinesSound(behind, junk);
    m := Message(r, lines);
    RenderThen(m, tail);
    MessageParses(m, tail, junk);
  }

  /** `s` starts with the message `m`. */
  predicate StartsWith(s: string, m: Message) {
    WellFormed(m) && Render(m) <= s
  }

  // ----- input that is not complete -----

  /** The start of a message that is not all of one. */
  ghost predicate IsStart(s: string) {
    exists m :: WellFormed(m) && s < Render(m)
  }

  /** A request line that has a space where its line end should be. */
  function SpaceText(r: Request, tail: string): string {
    r.verb + ([' '] + (['/'] + (r.address + ([' '] + (r.version + ([' '] + tail))))))
  }

  /** Such a line with nothing behind the space: no message starts like that, but the
      parser asks for more before it finds out. */
  ghost predicate EndsInSpace(s: string) {
    exists r :: IsRequest(r) && s == SpaceText(r, "")
  }

  lemma SpaceFails(r: Request, tail: string, junk: char)
    requires IsRequest(r)
    ensures ParseRequest(SpaceText(r, tail), junk).rc == if tail == "" then 1 else -1
    ensures !Dangling(SpaceText(r, tail))
  {
    var rest := r.address + ([' '] + (r.version + ([' '] + tail)));
    WordOf(r.verb, ' ', ['/'] + rest);
    AfterSlash(r.verb, rest);
    WordOf(r.address, ' ', r.version + ([' '] + tail));
    WordOf(r.version, ' ', tail);
  }

  lemma SpaceThen(r: Request, tail: string)
    ensures SpaceText(r, "") + tail == SpaceText(r, tail)
  {
    assert [' '] + "" == [' '];
    Assoc(r.verb, [' '] + (['/'] + (r.address + ([' '] + (r.version + [' '])))), tail);
    Assoc([' '], ['/'] + (r.address + ([' '] + (r.version + [' ']))), tail);
    Assoc(['/'], r.address + ([' '] + (r.version + [' '])), tail);
    Assoc(r.address, [' '] + (r.version + [' ']), tail);
    Assoc([' '], r.version + [' '], tail);
    Assoc(r.version, [' '], tail);
  }

  /** Nothing behind it can make it complete. */
  lemma SpaceIsNoStart(s: string)
    requires EndsInSpace(s)
    ensures !IsStart(s)
  {
    var r :| IsRequest(r) && s == SpaceText(r, "");
    forall m | WellFormed(m) ensures !(s < Render(m)) {
      if s < Render(m) {
        var t := Render(m)[|s|..];
        assert s + t == Render(m) == Render(m) + "";
        MessageParses(m, "", ' ');
        SpaceThen(r, t);
        SpaceFails(r, t, ' ');
      }
    }
  }

  lemma StartIsIncomplete(s: string, junk: char)
    requires IsStart(s) && !Dangling(s)
    ensures ParseRequest(s, junk).rc == 1
  {
    var m :| WellFormed(m) && s < Render(m);
    var t := Render(m)[|s|..];
    assert s + t == Render(m) == Render(m) + "";
    MessageParses(m, "", junk);
    if ParseRequest(s, junk).rc != 1 { VerdictIsFinal(s, t, junk, junk); }
  }

  lemma WordAll(s: string)
    requires WordLength(s) == |s|
    ensures IsWord(s)
  {
    WordHasNoStop(s);
  }

  /** The version and the line end, completed by `t` unless a space is in the way. */
  lemma VersionStart(s: string) returns (w: string, t: string)
    requires Version(s).rc == 1
    ensures IsWord(w) && if t == "" then s == w + [' '] else s + t == w + NewLine(NewLine(""))
  {
    var n := WordLength(s);
    w := s[..n];
    WordHasNoStop(s);
    if n == |s| {
      t := NewLine(NewLine(""));
    } else if s[n] == '\r' {
      t := ['\n'] + NewLine("");
    } else {
      t := "";
    }
  }

  lemma AddressStart(s: string) returns (a: string, w: string, t: string)
    requires AddressAndVersion(s).rc == 1
    ensures IsWord(a) && IsWord(w)
    ensures if t == "" then s == a + ([' '] + (w + [' '])) else s + t == a + ([' '] + (w + NewLine(NewLine(""))))
  {
    var n := WordLength(s);
    if n == |s| {
      WordAll(s);
      a, w, t := s, "", [' '] + ("" + NewLine(NewLine("")));
    } else {
      var rest;
      a, rest := WordSound(s);
      w, t := VersionStart(rest);
      Assoc(a, [' '] + rest, t);
      Assoc([' '], rest, t);
    }
  }

  /** The verb, alone or with its space. */
  lemma VerbStart(s: string) returns (r: Request, t: string)
    requires WordLength(s) == |s| || (WordLength(s) + 1 == |s| && s[WordLength(s)] == ' ')
    ensures IsRequest(r) && t != "" && s + t == LineText(r, NewLine(""))
  {
    var n := WordLength(s);
    var behind := ['/'] + ("" + ([' '] + ("" + NewLine(NewLine("")))));
    WordHasNoStop(s);
    r := Request(s[..n], "", "");
    if n == |s| {
      t := [' '] + behind;
    } else {
      t := behind;
      assert s == s[..n] + [' '];
      Assoc(s[..n], [' '], t);
    }
  }

  /** Behind the slash. */
  lemma TargetStart(s: string, verb: string, rest: string) returns (r: Request, t: string)
    requires s == verb + ([' '] + (['/'] + rest)) && IsWord(verb) && AddressAndVersion(rest).rc == 1
    ensures IsRequest(r) && if t == "" then s == SpaceText(r, "") else s + t == LineText(r, NewLine(""))
  {
    var a, w;
    a, w, t := AddressStart(rest);
    r := Request(verb, a, w);
    assert [' '] + "" == [' '];
    Assoc(verb, [' '] + (['/'] + rest), t);
    Assoc([' '], ['/'] + rest, t);
    Assoc(['/'], rest, t);
  }

  lemma LineStart(s: string) returns (r: Request, t: string)
    requires RequestLine(s).rc == 1
    ensures IsRequest(r) && if t == "" then s == SpaceText(r, "") else s + t == LineText(r, NewLine(""))
  {
    if WordLength(s) + 1 < |s| {
      r, t := BehindVerb(s);
    } else {
      r, t := VerbStart(s);
    }
  }

  lemma BehindVerb(s: string) returns (r: Request, t: string)
    requires WordLength(s) + 1 < |s| && s[WordLength(s)] == ' ' && s[WordLength(s) + 1] == '/'
    requires AddressAndVersion(Dropped(s, WordLength(s) + 2)).rc == 1
    ensures IsRequest(r) && if t == "" then s == SpaceText(r, "") else s + t == LineText(r, NewLine(""))
  {
    var verb, rest := VerbSound(s);
    r, t := TargetStart(s, verb, rest);
  }

  lemma {:induction false} LinesStart(s: string, junk: char) returns (lines: seq<string>, t: string)
    requires Headers(s, junk).rc == 1 && !DanglingHeaders(s)
    ensures (forall i :: 0 <= i < |lines| ==> IsLine(lines[i])) && t != "" && s + t == LinesText(lines, "")
    decreases |s|
  {
    var n := LineLength(s);
    LineHasNoReturn(s);
    if s == "" {
      lines, t := [], NewLine("");
    } else if n == |s| {
      lines, t := [s], NewLine(NewLine(""));
      assert lines[1..] == [];
    } else {
      var l, rest := HeaderSound(s);
      var more;
      more, t := LinesStart(rest, junk);
      lines := [l] + more;
      assert lines[1..] == more;
      Assoc(l, NewLine(rest), t);
      NewLineThen(rest, t);
    }
  }

  lemma IncompleteIsStart(s: string, junk: char)
    requires ParseRequest(s, junk).rc == 1 && !Dangling(s)
    ensures IsStart(s) || EndsInSpace(s)
  {
    var m, t := Completion(s, junk);
    if t != "" {
      assert s < s + t;
    } else {
      assert IsRequest(m.request);
    }
  }

  lemma Completion(s: string, junk: char) returns (m: Message, t: string)
    requires ParseRequest(s, junk).rc == 1 && !Dangling(s)
    ensures WellFormed(m) && if t == "" then s == SpaceText(m.request, "") else s + t == Render(m)
  {
    var line := RequestLine(s);
    if line.rc == 1 {
      var r;
      r, t := LineStart(s);
      m := Message(r, []);
    } else {
      var r, rest := LineSound(s);
      LineOf(r, rest);
      var lines;
      lines, t := LinesStart(rest, junk);
      m := Message(r, lines);
      LineTextThen(r, rest, t);
    }
  }

  // ----- messages that are cut -----

  /** The first `j` bytes of a line, its end, and more. */
  lemma CutLine(l: string, tail: string, j: nat)
    requires j <= |l + NewLine(tail)|
    ensures var s := (l + NewLine(tail))[..j];
      if j <= |l| then s == l[..j]
      else if j == |l| + 1 then s == l + ['\r']
      else s == l + NewLine(tail[..j - |l| - 2])
  {
  }

  lemma {:induction false} LinesCut(lines: seq<string>, j: nat, junk: char)
    requires (forall i :: 0 <= i < |lines| ==> IsLine(lines[i])) && j <= |LinesText(lines, "")|
    ensures var s := LinesText(lines, "")[..j];
      && (DanglingHeaders(s) <==> j > 0 && s[j - 1] == '\r')
      && (j + 1 == |LinesText(lines, "")| ==> Headers(s, junk).rc == if junk == '\n' then 0 else -1)
  {
    if lines != [] {
      var l, tail := lines[0], LinesText(lines[1..], "");
      assert IsLine(l);
      CutLine(l, tail, j);
      if j <= |l| {
        WholeLine(l[..j]);
      } else if j == |l| + 1 {
        LineSplit(l, ['\r']);
      } else {
        HeaderLine(l, tail[..j - |l| - 2]);
        LinesCut(lines[1..], j - |l| - 2, junk);
      }
    }
  }

  lemma {:induction false} WholeLine(s: string)
    requires forall i :: 0 <= i < |s| ==> s[i] != '\r'
    ensures LineLength(s) == |s|
  {
    if s != "" { WholeLine(s[1..]); }
  }

  /** The cut is between CR and LF of a header line or of the empty line. */
  predicate CutsNewLine(m: Message, k: nat)
    requires k <= |Render(m)|
  {
    k > LineSize(m.request) && Render(m)[k - 1] == '\r'
  }

  lemma CutText(m: Message, k: nat)
    requires LineSize(m.request) <= k <= |Render(m)|
    ensures Render(m)[..k] == LineText(m.request, LinesText(m.lines, "")[..k - LineSize(m.request)])
  {
    var j, all := k - LineSize(m.request), LinesText(m.lines, "");
    LineTextThen(m.request, all[..j], all[j..]);
    assert all[..j] + all[j..] == all;
  }

  lemma CutInRequestLine(m: Message, k: nat)
    requires WellFormed(m) && k < LineSize(m.request)
    ensures k <= |Render(m)| && RequestLine(Render(m)[..k]).rc == 1
  {
    var s, t := Render(m)[..k], Render(m)[k..];
    assert s + t == Render(m);
    LineOf(m.request, LinesText(m.lines, ""));
    if RequestLine(s).rc != 1 { LineIsFinal(s, t); }
  }

  /** A message that is cut anywhere is incomplete, unless the cut falls between CR and
      LF of a header line or of the empty line; then its verdict depends on the byte
      that lies behind the input. */
  lemma CutIsIncomplete(m: Message, k: nat, junk: char)
    requires WellFormed(m) && k < |Render(m)|
    ensures Dangling(Render(m)[..k]) <==> CutsNewLine(m, k)
    ensures !CutsNewLine(m, k) ==> ParseRequest(Render(m)[..k], junk).rc == 1
  {
    var n := LineSize(m.request);
    if k < n {
      CutInRequestLine(m, k);
    } else {
      var rest := LinesText(m.lines, "")[..k - n];
      CutText(m, k);
      LineOf(m.request, rest);
      LinesCut(m.lines, k - n, junk);
      if k > n { LastOf(m, k); }
    }
    if !CutsNewLine(m, k) {
      assert Render(m)[..k] < Render(m);
      StartIsIncomplete(Render(m)[..k], junk);
    }
  }

  lemma LastOf(m: Message, k: nat)
    requires LineSize(m.request) < k <= |Render(m)|
    ensures var j := k - LineSize(m.request);
      j <= |LinesText(m.lines, "")| && Render(m)[k - 1] == LinesText(m.lines, "")[j - 1]
  {
    LineEnd(m.request, LinesText(m.lines, ""));
    DroppedIs(Render(m), LineSize(m.request));
  }

  /** Cut between the CR and LF of its empty line, the byte behind it decides. */
  lemma CutInEmptyLine(m: Message, junk: char)
    requires WellFormed(m)
    ensures |Render(m)| > 0 && CutsNewLine(m, |Render(m)| - 1)
    ensures ParseRequest(Render(m)[..|Render(m)| - 1], junk).rc == if junk == '\n' then 0 else -1
  {
    var k := |Render(m)| - 1;
    RenderSize(m);
    EndsInNewLine(m.lines);
    LastOf(m, k);
    EmptyLineCut(m, k, junk);
  }

  lemma RenderSize(m: Message)
    ensures |Render(m)| == LineSize(m.request) + |LinesText(m.lines, "")|
  {
  }

  lemma EmptyLineCut(m: Message, k: nat, junk: char)
    requires WellFormed(m) && LineSize(m.request) < k == |Render(m)| - 1
    ensures ParseRequest(Render(m)[..k], junk).rc == if junk == '\n' then 0 else -1
  {
    var n := LineSize(m.request);
    RenderSize(m);
    CutText(m, k);
    LineOf(m.request, LinesText(m.lines, "")[..k - n]);
    LinesCut(m.lines, k - n, junk);
  }

  lemma {:induction false} EndsInNewLine(lines: seq<string>)
    ensures var s := LinesText(lines, ""); |s| >= 2 && s[|s| - 2] == '\r'
  {
    if lines != [] { EndsInNewLine(lines[1..]); }
  }

  // ----- the parser and the grammar -----

  /** On input that does not end between CR and LF of a header or empty line: the
      parser succeeds if and only if the input starts with a message, and reads that
      message, with or without header lines and whatever follows; it asks for more if
      and only if the input is the start of a message, or ends in a space behind the
      version; and anything else is an error. */
  lemma ParserReadsGrammar(s: string, junk: char)
    requires !Dangling(s)
    ensures ParseRequest(s, junk).rc == 0 <==> exists m :: StartsWith(s, m)
    ensures forall m :: StartsWith(s, m) ==> ParseRequest(s, junk) == Parsed(0, m.request, |Render(m)|)
    ensures ParseRequest(s, junk).rc == 1 <==> IsStart(s) || EndsInSpace(s)
  {
    var p := ParseRequest(s, junk);
    forall m | StartsWith(s, m) ensures p == Parsed(0, m.request, |Render(m)|) {
      var t := s[|Render(m)|..];
      assert s == Render(m) + t;
      MessageParses(m, t, junk);
    }
    if p.rc == 0 {
      var m := ParsedIsMessage(s, junk);
      assert StartsWith(s, m);
    }
    if p.rc == 1 { IncompleteIsStart(s, junk); }
    if IsStart(s) { StartIsIncomplete(s, junk); }
    if EndsInSpace(s) {
      var r :| IsRequest(r) && s == SpaceText(r, "");
      SpaceFails(r, "", junk);
    }
  }
}
