/**
 Requests as flat byte strings: what http_parser.cpp makes of them.

 parseLine looks at the byte behind a CR without checking that there is one.
 `junk` is what it finds there when the CR is the last byte of the input.
 */
module Http {
  import opened Bytes

  datatype Request = Request(verb: string, address: string, version: string)

  /** Return code (0 parsed, 1 insufficient input, -1 error), the fields as far
      as they were read, and the number of bytes read. */
  datatype Parsed = Parsed(rc: int, request: Request, read: nat)

  predicate Stops(c: char) {
    c == ' ' || c == '\r'
  }

  /** The length of the first word. */
  function WordLength(s: string): (n: nat)
    ensures n <= |s| && (n < |s| ==> Stops(s[n]))
  {
    if s == [] || Stops(s[0]) then 0 else 1 + WordLength(s[1..])
  }

  lemma {:induction false} WordHasNoStop(s: string)
    ensures forall i :: 0 <= i < WordLength(s) ==> !Stops(s[i])
  {
    if s != [] && !Stops(s[0]) { WordHasNoStop(s[1..]); }
  }

  /** The length of the first line. */
  function LineLength(s: string): (n: nat)
    ensures n <= |s| && (n < |s| ==> s[n] == '\r')
  {
    if s == [] || s[0] == '\r' then 0 else 1 + LineLength(s[1..])
  }

  /** The request line. */
  function RequestLine(s: string): (p: Parsed)
    ensures p.read <= |s| && (p.rc == 1 || p.rc == 0 || p.rc == -1)
    ensures p.rc == 1 ==> p.read == |s|
    ensures p.rc == 0 ==> p.read > 4
  {
    var v := WordLength(s);
    var verb := Request(s[..v], "", "");
    if v == |s| then Parsed(1, verb, |s|)
    else if s[v] != ' ' then Parsed(-1, verb, v)
    else if v + 1 == |s| then Parsed(1, verb, |s|)
    else if s[v + 1] != '/' then Parsed(-1, verb, v + 1)
    else
      var p := AddressAndVersion(Dropped(s, v + 2));
      Parsed(p.rc, p.request.(verb := s[..v]), v + 2 + p.read)
  }

  function AddressAndVersion(s: string): (p: Parsed)
    ensures p.read <= |s| && (p.rc == 1 || p.rc == 0 || p.rc == -1)
    ensures p.rc == 1 ==> p.read == |s|
    ensures p.rc == 0 ==> p.read > 2
  {
    var a := WordLength(s);
    if a == |s| then Parsed(1, Request("", s, ""), |s|)
    else if s[a] != ' ' then Parsed(-1, Request("", s[..a], ""), a)
    else
      var p := Version(Dropped(s, a + 1));
      Parsed(p.rc, p.request.(address := s[..a]), a + 1 + p.read)
  }

  function Version(s: string): (p: Parsed)
    ensures p.read <= |s| && (p.rc == 1 || p.rc == 0 || p.rc == -1)
    ensures p.rc == 1 ==> p.read == |s|
    ensures p.rc == 0 ==> p.read >= 2
  {
    var w := WordLength(s);
    var r := Request("", "", s[..w]);
    if w == |s| || w + 1 == |s| then Parsed(1, r, |s|)
    else if s[w] != '\r' || s[w + 1] != '\n' then Parsed(-1, r, w + 1)
    else Parsed(0, r, w + 2)
  }

  datatype Scan = Scan(rc: int, read: nat)

  /** Header lines up to and including the empty one. */
  function Headers(s: string, junk: char): (h: Scan)
    ensures h.read <= |s| && (h.rc == 1 || h.rc == 0 || h.rc == -1)
    ensures h.rc == 1 ==> h.read == |s|
    decreases |s|
  {
    var n := LineLength(s);
    if n == |s| then Scan(1, |s|)
    else if n + 1 == |s| then Scan(if junk != '\n' then -1 else if n == 0 then 0 else 1, |s|)
    else if s[n + 1] != '\n' then Scan(-1, n + 1)
    else if n == 0 then Scan(0, 2)
    else
      var h := Headers(Dropped(s, n + 2), junk);
      Scan(h.rc, n + 2 + h.read)
  }

  function ParseRequest(s: string, junk: char): (p: Parsed)
    ensures p.read <= |s| && (p.rc == 1 || p.rc == 0 || p.rc == -1)
    ensures p.rc == 1 ==> p.read == |s|
    ensures p.rc == 0 ==> p.read > 4
  {
    var line := RequestLine(s);
    if line.rc != 0 then line
    else
      var h := Headers(Dropped(s, line.read), junk);
      Parsed(h.rc, line.request, line.read + h.read)
  }

  // ----- input that ends between CR and LF -----

  /** The last byte is the CR that ends a header line or the empty line. */
  predicate DanglingHeaders(s: string)
    decreases |s|
  {
    var n := LineLength(s);
    && n < |s|
    && (n + 1 == |s| || (s[n + 1] == '\n' && n > 0 && DanglingHeaders(Dropped(s, n + 2))))
  }

  predicate Dangling(s: string) {
    RequestLine(s).rc == 0 && DanglingHeaders(Dropped(s, RequestLine(s).read))
  }

  lemma {:induction false} HeadersIgnoreJunk(s: string, j: char, k: char)
    ensures !DanglingHeaders(s) ==> Headers(s, j) == Headers(s, k)
    ensures DanglingHeaders(s) && j == '\n' != k ==> Headers(s, j).rc != -1 && Headers(s, k).rc == -1
    decreases |s|
  {
    var n := LineLength(s);
    if n + 1 < |s| && s[n + 1] == '\n' && n > 0 { HeadersIgnoreJunk(Dropped(s, n + 2), j, k); }
  }

  /** What lies behind the input matters exactly when the input ends there. */
  lemma JunkMattersIffDangling(s: string)
    ensures Dangling(s) <==> exists j, k :: ParseRequest(s, j) != ParseRequest(s, k)
  {
    forall j, k ensures !Dangling(s) ==> ParseRequest(s, j) == ParseRequest(s, k) {
      if RequestLine(s).rc == 0 { HeadersIgnoreJunk(Dropped(s, RequestLine(s).read), j, k); }
    }
    if Dangling(s) {
      HeadersIgnoreJunk(Dropped(s, RequestLine(s).read), '\n', ' ');
      assert ParseRequest(s, '\n') != ParseRequest(s, ' ');
    }
  }

  // ----- more input -----

  lemma {:induction false} WordSplit(s: string, t: string)
    ensures WordLength(s + t) == if WordLength(s) < |s| then WordLength(s) else |s| + WordLength(t)
  {
    if s == [] {
      assert s + t == t;
    } else if !Stops(s[0]) {
      assert (s + t)[1..] == s[1..] + t;
      WordSplit(s[1..], t);
    }
  }

  lemma {:induction false} LineSplit(s: string, t: string)
    ensures LineLength(s + t) == if LineLength(s) < |s| then LineLength(s) else |s| + LineLength(t)
  {
    if s == [] {
      assert s + t == t;
    } else if s[0] != '\r' {
      assert (s + t)[1..] == s[1..] + t;
      LineSplit(s[1..], t);
    }
  }

  /** A slice that starts inside the first part. */
  lemma TailSplit(s: string, t: string, i: nat)
    requires i <= |s|
    ensures Dropped(s + t, i) == Dropped(s, i) + t && (s + t)[..i] == s[..i]
  {
    DroppedIs(s, i);
    DroppedIs(s + t, i);
  }

  lemma VersionIsFinal(s: string, t: string)
    requires Version(s).rc != 1
    ensures Version(s + t) == Version(s)
  {
    WordSplit(s, t);
    TailSplit(s, t, WordLength(s));
  }

  lemma AddressIsFinal(s: string, t: string)
    requires AddressAndVersion(s).rc != 1
    ensures AddressAndVersion(s + t) == AddressAndVersion(s)
  {
    var a := WordLength(s);
    WordSplit(s, t);
    TailSplit(s, t, a);
    assert (s + t)[a] == s[a];
    if s[a] == ' ' {
      TailSplit(s, t, a + 1);
      VersionIsFinal(Dropped(s, a + 1), t);
    }
  }

  /** A verdict on the request line is final. */
  lemma LineIsFinal(s: string, t: string)
    requires RequestLine(s).rc != 1
    ensures RequestLine(s + t) == RequestLine(s)
  {
    var v := WordLength(s);
    WordSplit(s, t);
    TailSplit(s, t, v);
    assert (s + t)[v] == s[v];
    if s[v] == ' ' {
      assert (s + t)[v + 1] == s[v + 1];
      if s[v + 1] == '/' {
        TailSplit(s, t, v + 2);
        AddressIsFinal(Dropped(s, v + 2), t);
      }
    }
  }

  lemma {:induction false} HeadersAreFinal(s: string, t: string, j: char, k: char)
    requires Headers(s, j).rc != 1 && !DanglingHeaders(s)
    ensures Headers(s + t, k) == Headers(s, j)
    decreases |s|
  {
    var n := LineLength(s);
    LineSplit(s, t);
    if s[n + 1] == '\n' && n > 0 {
      TailSplit(s, t, n + 2);
      HeadersAreFinal(Dropped(s, n + 2), t, j, k);
    }
  }

  /** A verdict on a request is final, unless its input is dangling: more input
      behind it changes neither the code nor the fields nor the bytes read. */
  lemma VerdictIsFinal(s: string, t: string, j: char, k: char)
    requires ParseRequest(s, j).rc != 1 && !Dangling(s)
    ensures ParseRequest(s + t, k) == ParseRequest(s, j) && !Dangling(s + t)
  {
    var line := RequestLine(s);
    LineIsFinal(s, t);
    if line.rc == 0 {
      TailSplit(s, t, line.read);
      HeadersAreFinal(Dropped(s, line.read), t, j, k);
      HeadersAreFinal(Dropped(s, line.read), t, j, '\n');
      HeadersAreFinal(Dropped(s, line.read), t, j, ' ');
      HeadersIgnoreJunk(Dropped(s, line.read) + t, '\n', ' ');
    }
  }
}
