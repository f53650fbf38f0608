/** What the two ends of the internal adapter tell each other, in the reply's and the request's own fields. */
module HttpMeaning {
  import opened Text
  import opened HttpText
  import opened HttpAdapter

  // ------------------------------------------------------------ a reply as its reader sees it

  /** Whether a header of the reply says what its body is. */
  ghost predicate SaysType(hs: seq<Header>) {
    exists i :: 0 <= i < |hs| && ToLower(hs[i].name) == "content-type"
  }

  lemma LowerType()
    ensures ToLower("content-type") == "content-type"
  {
  }

  lemma {:induction false} HasTypeMeans(hs: seq<Header>)
    ensures HasType(hs) <==> SaysType(hs)
  {
    if hs != [] {
      var n := |hs| - 1;
      HasTypeMeans(hs[..n]);
      LowerType();
      if i :| 0 <= i < |hs| && ToLower(hs[i].name) == "content-type" && i < n { assert hs[..n][i] == hs[i]; }
    }
  }

  /** The headers the reader of a buffered reply gets: its own, in order, and those every reply is given. */
  ghost function HeadersGiven(reply: Reply): seq<Header>
    requires reply.body.Buffered?
  {
    reply.headers
    + (if SaysType(reply.headers) then [] else [Header("Content-Type", "application/json")])
    + [Header("X-Robots-Tag", "noindex, nofollow, noarchive")]
    + (if reply.status == 304 then [] else [Header("Content-Length", Decimal(|reply.body.bytes|))])
  }

  lemma HeadersAreGiven(reply: Reply)
    requires reply.body.Buffered?
    ensures WireHeaders(reply) == HeadersGiven(reply)
  {
    HasTypeMeans(reply.headers);
    var own := reply.headers;
    assert own + [] == own;
    assert Typed(own) + [ROBOTS] + [] == Typed(own) + [ROBOTS];
  }

  /**
    A written reply, read back: a buffered one gives its status, its headers with the added ones, and exactly its
    body; a 304 gives its status and no body; a streamed one gives a 500 that says so.
    */
  lemma ReplyAsRead(reply: Reply)
    requires reply.body.Buffered? ==> AllClean(reply.headers)
    ensures var parts := PartsOf(Rendered(reply));
      match reply.body
      case Buffered(bytes) =>
        && parts.status == reply.status && parts.headers == HeadersGiven(reply)
        && parts.body == if reply.status == 304 then "" else bytes
      case Streamed => parts.status == 500 && parts.body == "this route cannot stream on the legacy edge"
  {
    ReplyRoundTripIff(reply);
    if reply.body.Buffered? { HeadersAreGiven(reply); }
  }

  lemma MessageOnTheWire(start: string, hs: seq<Header>, body: string) returns (end: nat)
    requires OneLine(start) && AllClean(hs)
    ensures var wire := Message(start, hs, body);
      end + 4 <= |wire| && First(wire, BLANK) == Some(end) && wire[end + 4..] == body
  {
    var lines := [start] + Lines(hs);
    forall i | 0 <= i < |lines| ensures OneLine(lines[i]) && (i > 0 ==> lines[i] != []) {
      if i > 0 { LineOfClean(hs[i - 1]); }
    }
    HeadEnds(lines, body);
    TerminatedIsJoined(lines);
    Sliced(Joined(lines), body);
    end := |Joined(lines)|;
  }

  lemma MessageStarts(start: string, hs: seq<Header>, body: string) returns (rest: string)
    ensures Message(start, hs, body) == start + rest
  {
    var lines := [start] + Lines(hs);
    var more := Terminated(lines[1..]);
    rest := CRLF + more + CRLF + body;
    assert start + CRLF + more + CRLF + body == start + (CRLF + more + CRLF + body);
  }

  /** On the wire: the status line first, and after the first blank line the body and nothing else. */
  lemma ReplyOnTheWire(reply: Reply) returns (end: nat)
    requires reply.body.Buffered? && reply.status != 304 && AllClean(reply.headers)
    ensures var wire := Rendered(reply);
      && StartsWith(wire, "HTTP/1.1 " + Decimal(reply.status) + " ")
      && end + 4 <= |wire| && First(wire, "\r\n\r\n") == Some(end) && wire[end + 4..] == reply.body.bytes
  {
    var start, hs, body := StatusLine(reply.status), WireHeaders(reply), reply.body.bytes;
    StatusLineReadsBack(reply.status);
    WireHeadersAreClean(reply);
    end := MessageOnTheWire(start, hs, body);
    var rest := MessageStarts(start, hs, body);
    StartsWithStatus(reply.status, rest);
  }

  lemma StartsWithStatus(status: U16, rest: string)
    ensures StartsWith(StatusLine(status) + rest, "HTTP/1.1 " + Decimal(status) + " ")
  {
    var front := "HTTP/1.1 " + Decimal(status) + " ";
    assert "HTTP/1.1" + " " == "HTTP/1.1 ";
    assert StatusLine(status) == front + ReasonPhrase(status);
    Assoc(front, ReasonPhrase(status), rest);
  }

  // ------------------------------------------------------------ a message that is not one of ours

  /** No header of these names a length. */
  ghost predicate NoLength(hs: seq<Header>) {
    forall i :: 0 <= i < |hs| ==> ToLower(hs[i].name) != "content-length"
  }

  lemma LowerLength()
    ensures ToLower("content-length") == "content-length"
  {
  }

  lemma {:induction false} LastLength(before: seq<Header>, h: Header, after: seq<Header>)
    requires ToLower(h.name) == "content-length" && NoLength(after)
    ensures DeclaredLength(before + [h] + after) == ParseNat(h.value, USIZE_MAX)
  {
    var all := before + [h] + after;
    LowerLength();
    if after == [] {
      assert all[|all| - 1] == h;
    } else {
      var n := |after| - 1;
      assert all[|all| - 1] == after[n] && all[..|all| - 1] == before + [h] + after[..n];
      LastLength(before, h, after[..n]);
    }
  }

  lemma {:induction false} NoLengthDeclares(hs: seq<Header>)
    requires NoLength(hs)
    ensures DeclaredLength(hs) == None
  {
    LowerLength();
    if hs != [] { NoLengthDeclares(hs[..|hs| - 1]); }
  }

  /** The last length a message names cuts its body; a body that is shorter comes as it is. */
  lemma LengthCutsBody(start: string, before: seq<Header>, h: Header, after: seq<Header>, body: string, n: nat)
    requires OneLine(start) && AllClean(before + [h] + after)
    requires ToLower(h.name) == "content-length" && NoLength(after)
    requires h.value == Decimal(n) && n < 0x1_0000_0000_0000_0000
    ensures PartsOf(Message(start, before + [h] + after, body)).body == if n < |body| then body[..n] else body
  {
    MessageReadsBack(start, before + [h] + after, body);
    LastLength(before, h, after);
    DecimalRoundTrip(n, USIZE_MAX);
  }

  /** Without a length the body is all that follows the blank line. */
  lemma NoLengthKeepsBody(start: string, hs: seq<Header>, body: string)
    requires OneLine(start) && AllClean(hs) && NoLength(hs)
    ensures PartsOf(Message(start, hs, body)).body == body
  {
    MessageReadsBack(start, hs, body);
    NoLengthDeclares(hs);
  }

  /** A status line without a second word, or whose second word is no 16-bit number, reads as a 500. */
  lemma UnreadableStatusIs500(start: string, hs: seq<Header>, body: string)
    requires OneLine(start) && AllClean(hs)
    requires |Words(start)| < 2 || ParseNat(Words(start)[1], 65_535).None?
    ensures PartsOf(Message(start, hs, body)).status == 500
  {
    MessageReadsBack(start, hs, body);
  }

  /** A head line without a colon is passed over. */
  lemma ColonlessLineIsSkipped(start: string, line: string, body: string)
    requires OneLine(start) && OneLine(line) && line != [] && ':' !in line
    ensures PartsOf(Terminated([start, line]) + CRLF + body).headers == []
    ensures PartsOf(Terminated([start, line]) + CRLF + body).body == body
  {
    var lines := [start, line];
    HeadEnds(lines, body);
    TerminatedIsJoined(lines);
    SplitJoined(lines);
    Sliced(Joined(lines), body);
    assert lines[1..] == [line] && [line][..0] == [];
    assert Field(line) == [] && Fields([]) == [];
  }

  // ------------------------------------------------------------ a request's headers

  /** What a request header must be to go through: named otherwise than the length, with a visible value. */
  ghost predicate GoesThrough(h: Header) {
    h.name != "content-length" && forall i :: 0 <= i < |h.value| ==> h.value[i] == '\t' || ' ' <= h.value[i] <= '~'
  }

  lemma {:induction false} PassingIff(hs: seq<Header>, h: Header)
    ensures h in Passing(hs) <==> h in hs && GoesThrough(h)
  {
    if hs != [] {
      var n := |hs| - 1;
      PassingIff(hs[..n], h);
      assert hs == hs[..n] + [hs[n]];
      assert Passes(hs[n]) <==> GoesThrough(hs[n]);
    }
  }

  /** A formatted request carries, readable, exactly the headers that go through, and last its body's length. */
  lemma RequestHeaders(verb: string, uri: string, headers: seq<Header>, bodyLen: nat, h: Header)
    requires IsWord(verb) && IsWord(uri) && OneLine(RequestLine(verb, uri)) && AllClean(Passing(headers))
    ensures var got := PartsOf(RequestHead(verb, uri, headers, bodyLen)).headers;
      && |got| > 0 && got[|got| - 1] == Header("Content-Length", Decimal(bodyLen))
      && (h in got[..|got| - 1] <==> h in headers && GoesThrough(h))
  {
    ContentLengthIsClean(bodyLen);
    CleanSnoc(Passing(headers), ContentLength(bodyLen));
    MessageReadsBack(RequestLine(verb, uri), Passing(headers) + [ContentLength(bodyLen)], []);
    PassingIff(headers, h);
    var all := Passing(headers) + [ContentLength(bodyLen)];
    assert all[..|all| - 1] == Passing(headers);
  }

  // ------------------------------------------------------------ a request's target and size

  function Slashes(n: nat): string {
    seq(n, _ => '/')
  }

  lemma {:induction false} SlashesTrim(path: string, n: nat)
    requires path == [] || path[|path| - 1] != '/'
    ensures TrimSlashes(path + Slashes(n)) == path
  {
    if n == 0 {
      assert path + Slashes(0) == path;
    } else {
      var s := path + Slashes(n);
      assert s[|s| - 1] == '/' && s[..|s| - 1] == path + Slashes(n - 1);
      SlashesTrim(path, n - 1);
    }
  }

  /** The target as written: a path, some slashes behind it, and perhaps a query. */
  function Written(path: string, n: nat, query: Option<string>): string {
    path + Slashes(n) + (match query case Some(q) => "?" + q case None => "")
  }

  lemma CutAtMark(front: string, query: Option<string>)
    requires '?' !in front
    ensures var raw := front + (match query case Some(q) => "?" + q case None => "");
      var mark := Find(raw, '?');
      && (query.Some? ==> mark == Some(|front|) && raw[..|front|] == front && raw[|front| + 1..] == query.value)
      && (query.None? ==> mark == None && raw == front)
  {
    var raw := front + (match query case Some(q) => "?" + q case None => "");
    if query.Some? {
      assert raw[..|front|] == front;
      FindFirst(raw, '?', |front|);
    } else {
      assert raw == front;
    }
  }

  /** A target read: the path without its trailing slashes, the query after the first mark, and whether slashes went. */
  lemma TargetReads(path: string, n: nat, query: Option<string>)
    requires path != [] && path[|path| - 1] != '/' && '?' !in path
    ensures TargetOf(Written(path, n, query)) == Target(path, if query.Some? then query.value else "", n > 0)
  {
    CutAtMark(path + Slashes(n), query);
    SlashesTrim(path, n);
    if n == 0 { assert path + Slashes(0) == path; }
  }

  /** The root keeps its slash, and only when it is alone. */
  lemma RootReads(n: nat, query: Option<string>)
    requires n > 0
    ensures TargetOf(Written("", n, query)) ==
              Target(if n == 1 then "/" else "", if query.Some? then query.value else "", n > 1)
  {
    CutAtMark("" + Slashes(n), query);
    SlashesTrim("", n);
    assert "" + Slashes(1) == "/";
  }

  lemma LowerHead()
    ensures ToLower("HEAD") == "head"
  {
  }

  /** What the handler's front must make of a whole request. */
  function RequestShould(verb: string, path: string, n: nat, query: Option<string>, body: string): Received {
    var routed := if ToLower(verb) == "head" then "GET" else verb;
    var upload := routed == "POST" && |path| >= 6 && path[|path| - 6..] == "/files";
    if upload && |body| > 104_857_600 then TooLarge(100)
    else if !upload && |body| > 4_194_304 then TooLarge(4)
    else Accepted(routed, Target(path, if query.Some? then query.value else "", n > 0), body)
  }

  /**
    A request sent and received: HEAD as GET, the path without trailing slashes, the query apart, and the exact body, or
    a 413 beyond 100 MiB for an upload and 4 MiB for anything else.
    */
  lemma RequestAsReceived(verb: string, path: string, n: nat, query: Option<string>, headers: seq<Header>, body: string)
    requires path != [] && path[|path| - 1] != '/' && '?' !in path
    requires IsWord(verb) && IsWord(Written(path, n, query)) && |body| < 0x1_0000_0000_0000_0000
    requires forall i :: 0 <= i < |headers| ==> '\n' !in headers[i].name
    ensures ReceivedOf(RequestHead(verb, Written(path, n, query), headers, |body|) + body)
         == RequestShould(verb, path, n, query, body)
  {
    RequestRoundTrip(verb, Written(path, n, query), headers, body);
    TargetReads(path, n, query);
    OutcomeShould(verb, Written(path, n, query), path, n, query, body);
  }

  lemma OutcomeShould(verb: string, uri: string, path: string, n: nat, query: Option<string>, body: string)
    requires TargetOf(uri) == Target(path, if query.Some? then query.value else "", n > 0)
    ensures Outcome(verb, uri, body) == RequestShould(verb, path, n, query, body)
  {
    LowerHead();
    assert EndsWith(path, "/files") <==> |path| >= 6 && path[|path| - 6..] == "/files";
  }

  /** A body shorter than its request declares is refused, unless the size alone already refuses it. */
  lemma ShortBodyIsRefused(verb: string, uri: string, headers: seq<Header>, declared: nat, body: string)
    requires IsWord(verb) && IsWord(uri) && |body| < declared < 0x1_0000_0000_0000_0000
    requires forall i :: 0 <= i < |headers| ==> '\n' !in headers[i].name
    ensures var r := ReceivedOf(RequestHead(verb, uri, headers, declared) + body);
      r.CutShort? || (r.TooLarge? && declared > 4_194_304)
  {
    var start := RequestLine(verb, uri);
    var hs := Passing(headers) + [ContentLength(declared)];
    RequestText(start, hs, body);
    ReadLineOf(start, Terminated(Lines(hs)) + CRLF + body);
    RequestLineReadsBack(verb, uri);
    PassingIsUnbroken(headers);
    LengthLineIsUnbroken(declared);
    UnbrokenSnoc(Passing(headers), ContentLength(declared));
    ForcedLengthWins(Passing(headers), declared, 0);
    HeaderLoopReads(hs, body, 0);
  }

  /** A first line of fewer than two words gets no reply at all. */
  lemma ShortFirstLineIsDropped(line: string, rest: string)
    requires '\n' !in line && |Words(Trim(line + CRLF))| < 2
    ensures ReceivedOf(line + CRLF + rest) == Dropped
  {
    ReadLineOf(line, rest);
  }

  lemma {:induction false} LengthAfterLast(hs: seq<Header>, h: Header, length: nat)
    ensures LengthAfterAll(hs + [h], length) == LengthAfter(Line(h) + CRLF, LengthAfterAll(hs, length))
  {
    if hs == [] {
      assert hs + [h] == [h] && [h][1..] == [];
    } else {
      assert (hs + [h])[1..] == hs[1..] + [h];
      LengthAfterLast(hs[1..], h, LengthAfter(Line(hs[0]) + CRLF, length));
    }
  }

  lemma UnreadableLine(value: string, length: nat)
    requires ToLower(value) == value && Trimmed(value) && ParseNat(value, USIZE_MAX).None?
    ensures LengthAfter(Line(Header("Content-Length", value)) + CRLF, length) == 0
  {
    var line, name := Line(Header("Content-Length", value)) + CRLF, "Content-Length: ";
    LowerLengthName();
    assert "Content-Length" + ": " == name;
    assert line == name + (value + CRLF);
    LowerJoin(name, value + CRLF);
    LowerJoin(value, CRLF);
    assert ToLower(CRLF) == CRLF;
    assert ToLower(line)[..|LENGTH_PREFIX|] == LENGTH_PREFIX && ToLower(line)[|LENGTH_PREFIX|..] == value + CRLF;
    TrimTail(value, CRLF);
  }

  lemma LowerJoin(a: string, b: string)
    ensures ToLower(a + b) == ToLower(a) + ToLower(b)
  {
  }

  /** A last length that is no number counts as none: the request is taken with an empty body. */
  lemma UnreadableLengthIsNought(verb: string, uri: string, hs: seq<Header>, value: string, body: string)
    requires IsWord(verb) && IsWord(uri) && Unbroken(hs + [Header("Content-Length", value)])
    requires ToLower(value) == value && Trimmed(value) && ParseNat(value, USIZE_MAX).None?
    ensures var all := hs + [Header("Content-Length", value)];
      ReceivedOf(RequestLine(verb, uri) + CRLF + (Terminated(Lines(all)) + CRLF + body)) == Outcome(verb, uri, [])
  {
    var all := hs + [Header("Content-Length", value)];
    RequestLineReadsBack(verb, uri);
    ReadLineOf(RequestLine(verb, uri), Terminated(Lines(all)) + CRLF + body);
    LengthAfterLast(hs, Header("Content-Length", value), 0);
    UnreadableLine(value, LengthAfterAll(hs, 0));
    HeaderLoopReads(all, body, 0);
  }
}
