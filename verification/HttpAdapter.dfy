/**
  The internal HTTP/1.1 adapter: replies and requests are written as raw message bytes by one side
  and parsed back by the other, with the body delimited by Content-Length.
  */
module HttpAdapter {
  import opened Text
  import opened HttpText

  type U16 = n: nat | n < 0x1_0000

  const USIZE_MAX: nat := 0xFFFF_FFFF_FFFF_FFFF
  const MIB: nat := 1024 * 1024
  const UPLOAD_MAX_BYTES: nat := 100 * MIB
  const NON_UPLOAD_MAX_BODY_BYTES: nat := 4 * MIB

  datatype Header = Header(name: string, value: string)

  datatype Body = Buffered(bytes: string) | Streamed

  datatype Reply = Reply(status: U16, headers: seq<Header>, body: Body)

  datatype Parts = Parts(status: U16, headers: seq<Header>, body: string)

  const JSON_TYPE := Header("Content-Type", "application/json")
  const TEXT_TYPE := Header("Content-Type", "text/plain; charset=utf-8")
  const ROBOTS := Header("X-Robots-Tag", "noindex, nofollow, noarchive")
  const REFUSAL: string := "this route cannot stream on the legacy edge"

  function ContentLength(n: nat): Header {
    Header("Content-Length", Decimal(n))
  }

  predicate SameName(a: string, b: string) {
    ToLower(a) == ToLower(b)
  }

  function Line(h: Header): string {
    h.name + ": " + h.value
  }

  // The source's one table of reason phrases, by class of status.

  function EarlyReason(status: U16): string {
    match status
    case 200 => "OK"
    case 201 => "Created"
    case 202 => "Accepted"
    case 204 => "No Content"
    case 206 => "Partial Content"
    case 301 => "Moved Permanently"
    case 302 => "Found"
    case 304 => "Not Modified"
    case 307 => "Temporary Redirect"
    case 308 => "Permanent Redirect"
    case _ => "Error"
  }

  function ClientErrorReason(status: U16): string {
    match status
    case 400 => "Bad Request"
    case 401 => "Unauthorized"
    case 403 => "Forbidden"
    case 404 => "Not Found"
    case 405 => "Method Not Allowed"
    case 406 => "Not Acceptable"
    case 408 => "Request Timeout"
    case 409 => "Conflict"
    case 413 => "Payload Too Large"
    case 415 => "Unsupported Media Type"
    case 423 => "Locked"
    case 429 => "Too Many Requests"
    case _ => "Error"
  }

  function ServerErrorReason(status: U16): string {
    match status
    case 500 => "Internal Server Error"
    case 501 => "Not Implemented"
    case 502 => "Bad Gateway"
    case 503 => "Service Unavailable"
    case 504 => "Gateway Timeout"
    case _ => "Error"
  }

  function ReasonPhrase(status: U16): string {
    if status < 400 then EarlyReason(status)
    else if status < 500 then ClientErrorReason(status)
    else ServerErrorReason(status)
  }

  // ------------------------------------------------------------ writing a reply

  function StatusLine(status: U16): string {
    "HTTP/1.1" + " " + Decimal(status) + " " + ReasonPhrase(status)
  }

  predicate HasType(hs: seq<Header>) {
    hs != [] && (HasType(hs[..|hs| - 1]) || SameName(hs[|hs| - 1].name, "content-type"))
  }

  /** What a reply says on the wire: a streamed body is refused with a 500. */
  function WireStatus(reply: Reply): U16 {
    if reply.body.Streamed? then 500 else reply.status
  }

  function WireBody(reply: Reply): string {
    if reply.body.Streamed? then REFUSAL else if reply.status == 304 then [] else reply.body.bytes
  }

  /** Untyped headers are given the JSON type. */
  function Typed(hs: seq<Header>): seq<Header> {
    if HasType(hs) then hs else hs + [JSON_TYPE]
  }

  function WireHeaders(reply: Reply): seq<Header> {
    if reply.body.Streamed? then [TEXT_TYPE, ROBOTS, ContentLength(|REFUSAL|)]
    else if reply.status == 304 then Typed(reply.headers) + [ROBOTS]
    else Typed(reply.headers) + [ROBOTS] + [ContentLength(|reply.body.bytes|)]
  }

  function Lines(hs: seq<Header>): (lines: seq<string>)
    ensures |lines| == |hs| && forall i :: 0 <= i < |hs| ==> lines[i] == Line(hs[i])
  {
    if hs == [] then [] else Lines(hs[..|hs| - 1]) + [Line(hs[|hs| - 1])]
  }

  /** A message: the start line, one line per header, a blank line, the body. */
  function Message(start: string, hs: seq<Header>, body: string): string {
    Terminated([start] + Lines(hs)) + CRLF + body
  }

  function Rendered(reply: Reply): string {
    Message(StatusLine(WireStatus(reply)), WireHeaders(reply), WireBody(reply))
  }

  /** One more line at the end of a head. */
  lemma {:induction false} TerminatedSnoc(lines: seq<string>, line: string)
    ensures Terminated(lines + [line]) == Terminated(lines) + line + CRLF
  {
    if lines == [] {
      assert lines + [line] == [line] && Terminated([line][1..]) == [];
      assert line + CRLF + [] == [] + line + CRLF;
    } else {
      TerminatedSnoc(lines[1..], line);
      assert (lines + [line])[1..] == lines[1..] + [line];
      var tail := Terminated(lines[1..]);
      assert lines[0] + CRLF + (tail + line + CRLF) == lines[0] + CRLF + tail + line + CRLF;
    }
  }

  /** The head so far, with one more header line pushed on. */
  lemma PushedHeader(start: string, hs: seq<Header>, h: Header)
    ensures Terminated([start] + Lines(hs + [h]))
         == Terminated([start] + Lines(hs)) + h.name + ": " + h.value + CRLF
  {
    assert (hs + [h])[..|hs|] == hs;
    assert [start] + Lines(hs + [h]) == ([start] + Lines(hs)) + [Line(h)];
    TerminatedSnoc([start] + Lines(hs), Line(h));
    var t := Terminated([start] + Lines(hs));
    assert t + (h.name + ": " + h.value) + CRLF == t + h.name + ": " + h.value + CRLF;
  }

  lemma StartOnly(start: string)
    ensures Terminated([start] + Lines([])) == start + CRLF
  {
    assert [start] + Lines([]) == [start];
    assert Terminated([start][1..]) == [];
  }

  method PushHeader(head: string, h: Header, ghost start: string, ghost hs: seq<Header>) returns (longer: string)
    requires head == Terminated([start] + Lines(hs))
    ensures longer == Terminated([start] + Lines(hs + [h]))
  {
    longer := head + h.name;
    longer := longer + ": ";
    longer := longer + h.value;
    longer := longer + "\r\n";
    PushedHeader(start, hs, h);
  }

  /** The blank line and the body close a message. */
  method Close(head: string, body: string, ghost start: string, ghost hs: seq<Header>) returns (out: string)
    requires head == Terminated([start] + Lines(hs))
    ensures out == Message(start, hs, body)
  {
    out := head + "\r\n";
    out := out + body;
  }

  method PushHeaders(head: string, hs: seq<Header>, ghost start: string) returns (longer: string, typed: bool)
    requires head == Terminated([start] + Lines([]))
    ensures longer == Terminated([start] + Lines(hs)) && typed == HasType(hs)
  {
    longer, typed := head, false;
    for i := 0 to |hs|
      invariant longer == Terminated([start] + Lines(hs[..i])) && typed == HasType(hs[..i])
    {
      if SameName(hs[i].name, "content-type") {
        typed := true;
      }
      longer := PushHeader(longer, hs[i], start, hs[..i]);
      assert hs[..i + 1] == hs[..i] + [hs[i]] && hs[..i + 1][..i] == hs[..i];
    }
    assert hs[..|hs|] == hs;
  }

  method Refuse() returns (out: string)
    ensures forall reply: Reply :: reply.body.Streamed? ==> out == Rendered(reply)
  {
    ghost var start := StatusLine(500);
    StartOnly(start);
    var head := PushHeader(StatusLine(500) + "\r\n", TEXT_TYPE, start, []);
    head := PushHeader(head, ROBOTS, start, [] + [TEXT_TYPE]);
    head := PushHeader(head, ContentLength(|REFUSAL|), start, [] + [TEXT_TYPE] + [ROBOTS]);
    ghost var hs := [TEXT_TYPE, ROBOTS, ContentLength(|REFUSAL|)];
    assert [] + [TEXT_TYPE] + [ROBOTS] + [ContentLength(|REFUSAL|)] == hs;
    out := Close(head, REFUSAL, start, hs);
  }

  method WriteReply(reply: Reply) returns (out: string)
    ensures out == Rendered(reply)
  {
    if reply.body.Streamed? {
      out := Refuse();
      return;
    }
    ghost var start := StatusLine(reply.status);
    ghost var hs := reply.headers;
    StartOnly(start);
    var head, typed := PushHeaders(StatusLine(reply.status) + "\r\n", reply.headers, start);
    if !typed {
      head := PushHeader(head, JSON_TYPE, start, hs);
      hs := hs + [JSON_TYPE];
    }
    assert hs == Typed(reply.headers);
    head := PushHeader(head, ROBOTS, start, hs);
    hs := hs + [ROBOTS];
    if reply.status == 304 {
      out := Close(head, [], start, hs);
      return;
    }
    head := PushHeader(head, ContentLength(|reply.body.bytes|), start, hs);
    hs := hs + [ContentLength(|reply.body.bytes|)];
    out := Close(head, reply.body.bytes, start, hs);
  }

  // ------------------------------------------------------------ parsing it back

  function StatusOf(line: string): U16 {
    var words := Words(line);
    if |words| < 2 then 500
    else match ParseNat(words[1], 0xFFFF)
      case Some(n) => n as U16
      case None => 500
  }

  /** A head line with a colon is a header; one without is skipped. */
  function Field(line: string): seq<Header> {
    match Find(line, ':')
    case Some(c) => [Header(Trim(line[..c]), Trim(line[c + 1..]))]
    case None => []
  }

  function FlatMap<A, B>(xs: seq<A>, f: A -> seq<B>): seq<B> {
    if xs == [] then [] else FlatMap(xs[..|xs| - 1], f) + f(xs[|xs| - 1])
  }

  function Fields(lines: seq<string>): seq<Header> {
    FlatMap(lines, Field)
  }

  /** The last Content-Length decides, even when it does not parse. */
  function DeclaredLength(hs: seq<Header>): Option<nat> {
    if hs == [] then None
    else if SameName(hs[|hs| - 1].name, "content-length") then ParseNat(hs[|hs| - 1].value, USIZE_MAX)
    else DeclaredLength(hs[..|hs| - 1])
  }

  function Clamped(body: string, length: Option<nat>): string {
    if length.Some? && length.value < |body| then body[..length.value] else body
  }

  function PartsOf(wire: string): Parts {
    var split := First(wire, BLANK);
    var head := if split.Some? then wire[..split.value] else wire;
    var body := if split.Some? then wire[split.value + 4..] else [];
    var lines := SplitLines(head);
    var hs := Fields(lines[1..]);
    Parts(StatusOf(lines[0]), hs, Clamped(body, DeclaredLength(hs)))
  }

  method CollectHeaders(lines: seq<string>) returns (headers: seq<Header>, contentLength: Option<nat>)
    ensures headers == Fields(lines) && contentLength == DeclaredLength(headers)
  {
    headers, contentLength := [], None;
    for i := 0 to |lines|
      invariant headers == Fields(lines[..i]) && contentLength == DeclaredLength(headers)
    {
      var line := lines[i];
      assert lines[..i + 1][..i] == lines[..i];
      var colon := Find(line, ':');
      if colon.Some? {
        var h := Header(Trim(line[..colon.value]), Trim(line[colon.value + 1..]));
        if SameName(h.name, "content-length") {
          contentLength := ParseNat(h.value, USIZE_MAX);
        }
        assert (headers + [h])[..|headers|] == headers;
        headers := headers + [h];
      } else {
        assert headers + [] == headers;
      }
    }
    assert lines[..|lines|] == lines;
  }

  method ParseH1Parts(wire: string) returns (parts: Parts)
    ensures parts == PartsOf(wire)
  {
    var split := First(wire, "\r\n\r\n");
    var head, body := wire, "";
    if split.Some? {
      head, body := wire[..split.value], wire[split.value + 4..];
    }
    var lines := SplitLines(head);
    var status := StatusOf(lines[0]);
    var headers, contentLength := CollectHeaders(lines[1..]);
    parts := Parts(status, headers, Clamped(body, contentLength));
  }

  // ------------------------------------------------------------ the reply round trip

  /** A header that survives the wire: one line, no colon in the name, no whitespace at any end. */
  ghost predicate Clean(h: Header) {
    && OneLine(h.name) && ':' !in h.name && Trimmed(h.name)
    && OneLine(h.value) && Trimmed(h.value)
  }

  ghost predicate AllClean(hs: seq<Header>) {
    forall i :: 0 <= i < |hs| ==> Clean(hs[i])
  }

  lemma TrimAddsNothing(s: string, c: char)
    requires c !in s
    ensures c !in Trim(s)
  {
    var from, to := TrimCuts(s);
  }

  /** Whatever was on the wire, the headers parsed off it are clean. */
  lemma FieldIsClean(line: string)
    requires OneLine(line)
    ensures AllClean(Field(line))
  {
    var colon := Find(line, ':');
    if colon.Some? {
      var c := colon.value;
      assert line[..c] == line[0..c] && line[c + 1..] == line[c + 1..|line|];
      SliceIsClean(line, 0, c);
      SliceIsClean(line, c + 1, |line|);
      TrimAddsNothing(line[..c], ':');
      OneIsClean(Header(Trim(line[..c]), Trim(line[c + 1..])));
    }
  }

  lemma OneIsClean(h: Header)
    requires Clean(h)
    ensures AllClean([h])
  {
  }

  lemma SliceIsClean(s: string, lo: nat, hi: nat)
    requires OneLine(s) && lo <= hi <= |s|
    ensures OneLine(Trim(s[lo..hi])) && Trimmed(Trim(s[lo..hi]))
  {
    var from, to := TrimCuts(s[lo..hi]);
    var cut := s[lo..hi][from..to];
    forall i: nat ensures !At(cut, CRLF, i) {
      AtCrlf(cut, i);
      AtCrlf(s, lo + from + i);
    }
  }

  lemma {:induction false} FieldsAreClean(lines: seq<string>)
    requires forall i :: 0 <= i < |lines| ==> OneLine(lines[i])
    ensures AllClean(Fields(lines))
  {
    if lines != [] {
      FieldsAreClean(lines[..|lines| - 1]);
      FieldIsClean(lines[|lines| - 1]);
    }
  }

  lemma ParsedHeadersAreClean(wire: string)
    ensures AllClean(PartsOf(wire).headers)
  {
    var split := First(wire, BLANK);
    var lines := SplitLines(if split.Some? then wire[..split.value] else wire);
    forall i | 0 <= i < |lines[1..]| ensures OneLine(lines[1..][i]) {
      assert lines[1..][i] == lines[i + 1];
    }
    FieldsAreClean(lines[1..]);
  }

  /** The line of a clean header is one line and parses back to that header. */
  lemma LineOfClean(h: Header)
    requires Clean(h)
    ensures OneLine(Line(h)) && Line(h) != [] && Field(Line(h)) == [h]
  {
    var line, n := Line(h), |h.name|;
    forall i: nat ensures !At(line, CRLF, i) {
      AtCrlf(line, i);
      AtCrlf(h.name, i);
      if i >= n + 2 { AtCrlf(h.value, i - n - 2); }
    }
    assert line[n] == ':' && line[..n] == h.name && line[n + 1..] == " " + h.value;
    FindFirst(line, ':', n);
    TrimFixed(h.name);
    TrimPadded(" ", h.value);
  }

  lemma {:induction false} EachOnce<A, B>(xs: seq<A>, f: A -> seq<B>, ys: seq<B>)
    requires |xs| == |ys| && forall i :: 0 <= i < |xs| ==> f(xs[i]) == [ys[i]]
    ensures FlatMap(xs, f) == ys
  {
    if xs != [] {
      var n := |xs| - 1;
      EachOnce(xs[..n], f, ys[..n]);
      assert ys[..n] + [ys[n]] == ys;
    }
  }

  lemma FieldsOfLines(hs: seq<Header>)
    requires AllClean(hs)
    ensures Fields(Lines(hs)) == hs
  {
    forall i | 0 <= i < |hs| ensures Field(Lines(hs)[i]) == [hs[i]] {
      LineOfClean(hs[i]);
    }
    EachOnce(Lines(hs), Field, hs);
  }

  lemma DigitsAreWord(n: nat)
    ensures IsWord(Decimal(n)) && NoBreaks(Decimal(n)) && Trimmed(Decimal(n)) && ':' !in Decimal(n)
  {
    DecimalValue(n);
  }

  lemma EarlyReasonIsOneLine(status: U16)
    ensures NoBreaks(EarlyReason(status))
  {
    match status
    case 200 => assert NoBreaks("OK");
    case 201 => assert NoBreaks("Created");
    case 202 => assert NoBreaks("Accepted");
    case 204 => assert NoBreaks("No Content");
    case 206 => assert NoBreaks("Partial Content");
    case 301 => assert NoBreaks("Moved Permanently");
    case 302 => assert NoBreaks("Found");
    case 304 => assert NoBreaks("Not Modified");
    case 307 => assert NoBreaks("Temporary Redirect");
    case 308 => assert NoBreaks("Permanent Redirect");
    case _ => assert NoBreaks("Error");
  }

  lemma ClientErrorReasonIsOneLine(status: U16)
    ensures NoBreaks(ClientErrorReason(status))
  {
    match status
    case 400 => assert NoBreaks("Bad Request");
    case 401 => assert NoBreaks("Unauthorized");
    case 403 => assert NoBreaks("Forbidden");
    case 404 => assert NoBreaks("Not Found");
    case 405 => assert NoBreaks("Method Not Allowed");
    case 406 => assert NoBreaks("Not Acceptable");
    case 408 => assert NoBreaks("Request Timeout");
    case 409 => assert NoBreaks("Conflict");
    case 413 => assert NoBreaks("Payload Too Large");
    case 415 => assert NoBreaks("Unsupported Media Type");
    case 423 => assert NoBreaks("Locked");
    case 429 => assert NoBreaks("Too Many Requests");
    case _ => assert NoBreaks("Error");
  }

  lemma ServerErrorReasonIsOneLine(status: U16)
    ensures NoBreaks(ServerErrorReason(status))
  {
    match status
    case 500 => assert NoBreaks("Internal Server Error");
    case 501 => assert NoBreaks("Not Implemented");
    case 502 => assert NoBreaks("Bad Gateway");
    case 503 => assert NoBreaks("Service Unavailable");
    case 504 => assert NoBreaks("Gateway Timeout");
    case _ => assert NoBreaks("Error");
  }

  lemma ReasonIsOneLine(status: U16)
    ensures NoBreaks(ReasonPhrase(status))
  {
    EarlyReasonIsOneLine(status);
    ClientErrorReasonIsOneLine(status);
    ServerErrorReasonIsOneLine(status);
  }

  lemma StatusLineReadsBack(status: U16)
    ensures OneLine(StatusLine(status)) && StatusOf(StatusLine(status)) == status
  {
    DigitsAreWord(status);
    ReasonIsOneLine(status);
    NoBreaksOneLine(StatusLine(status));
    assert IsWord("HTTP/1.1");
    TwoWords("HTTP/1.1", Decimal(status), ReasonPhrase(status));
    var words := Words(StatusLine(status));
    assert words[1] == words[..2][1];
    DecimalRoundTrip(status, 0xFFFF);
  }

  /** A message of clean headers parses back to its start line, its headers and its body. */
  lemma MessageReadsBack(start: string, hs: seq<Header>, body: string)
    requires OneLine(start) && AllClean(hs)
    ensures PartsOf(Message(start, hs, body)) == Parts(StatusOf(start), hs, Clamped(body, DeclaredLength(hs)))
  {
    var lines := [start] + Lines(hs);
    forall i | 0 <= i < |lines| ensures OneLine(lines[i]) && (i > 0 ==> lines[i] != []) {
      if i > 0 { LineOfClean(hs[i - 1]); }
    }
    var wire := Message(start, hs, body);
    HeadEnds(lines, body);
    TerminatedIsJoined(lines);
    SplitJoined(lines);
    FieldsOfLines(hs);
    Sliced(Joined(lines), body);
    assert lines[1..] == Lines(hs);
  }

  lemma Sliced(head: string, body: string)
    ensures var wire := head + CRLF + CRLF + body; wire[..|head|] == head && wire[|head| + 4..] == body
  {
  }

  lemma PlainHeaderIsClean(h: Header)
    requires NoBreaks(h.name) && NoBreaks(h.value) && ':' !in h.name && Trimmed(h.name) && Trimmed(h.value)
    ensures Clean(h)
  {
    NoBreaksOneLine(h.name);
    NoBreaksOneLine(h.value);
  }

  lemma TypeNameIsPlain()
    ensures NoBreaks("Content-Type") && ':' !in "Content-Type" && Trimmed("Content-Type")
  {
  }

  lemma JsonValueIsPlain()
    ensures NoBreaks("application/json") && Trimmed("application/json")
  {
  }

  lemma TextValueIsPlain()
    ensures NoBreaks("text/plain; charset=utf-8") && Trimmed("text/plain; charset=utf-8")
  {
  }

  lemma RobotsNameIsPlain()
    ensures NoBreaks("X-Robots-Tag") && ':' !in "X-Robots-Tag" && Trimmed("X-Robots-Tag")
  {
  }

  lemma RobotsValueIsPlain()
    ensures NoBreaks("noindex, nofollow, noarchive") && Trimmed("noindex, nofollow, noarchive")
  {
  }

  lemma JsonTypeIsClean()
    ensures Clean(JSON_TYPE)
  {
    TypeNameIsPlain();
    JsonValueIsPlain();
    PlainHeaderIsClean(JSON_TYPE);
  }

  lemma TextTypeIsClean()
    ensures Clean(TEXT_TYPE)
  {
    TypeNameIsPlain();
    TextValueIsPlain();
    PlainHeaderIsClean(TEXT_TYPE);
  }

  lemma RobotsIsClean()
    ensures Clean(ROBOTS)
  {
    RobotsNameIsPlain();
    RobotsValueIsPlain();
    PlainHeaderIsClean(ROBOTS);
  }

  lemma ContentLengthIsClean(n: nat)
    ensures Clean(ContentLength(n))
  {
    DigitsAreWord(n);
    PlainHeaderIsClean(ContentLength(n));
  }

  lemma FixedHeadersAreClean(n: nat)
    ensures Clean(JSON_TYPE) && Clean(TEXT_TYPE) && Clean(ROBOTS) && Clean(ContentLength(n))
  {
    JsonTypeIsClean();
    TextTypeIsClean();
    RobotsIsClean();
    ContentLengthIsClean(n);
  }

  lemma LengthIsLast(hs: seq<Header>, n: nat)
    ensures DeclaredLength(hs + [ContentLength(n)]) == (if n <= USIZE_MAX then Some(n) else None)
  {
    assert SameName("Content-Length", "content-length");
    DecimalRoundTrip(n, USIZE_MAX);
  }

  /** The body comes back whole: its length is the last header, and a 304 has nothing to cut. */
  lemma BodyIsWhole(reply: Reply)
    ensures Clamped(WireBody(reply), DeclaredLength(WireHeaders(reply))) == WireBody(reply)
  {
    if reply.body.Streamed? {
      assert WireHeaders(reply) == [TEXT_TYPE, ROBOTS] + [ContentLength(|REFUSAL|)];
      LengthIsLast([TEXT_TYPE, ROBOTS], |REFUSAL|);
    } else if reply.status != 304 {
      LengthIsLast(Typed(reply.headers) + [ROBOTS], |reply.body.bytes|);
    }
  }

  /** What a reply must read back as. */
  function Expected(reply: Reply): Parts {
    Parts(WireStatus(reply), WireHeaders(reply), WireBody(reply))
  }

  ghost predicate HeadersSurvive(reply: Reply) {
    reply.body.Buffered? ==> AllClean(reply.headers)
  }

  lemma OwnHeadersComeFirst(reply: Reply, i: nat)
    requires reply.body.Buffered? && i < |reply.headers|
    ensures i < |WireHeaders(reply)| && WireHeaders(reply)[i] == reply.headers[i]
  {
  }

  lemma UncleanHeaderIsLost(reply: Reply, i: nat)
    requires reply.body.Buffered? && i < |reply.headers| && !Clean(reply.headers[i])
    ensures PartsOf(Rendered(reply)) != Expected(reply)
  {
    OwnHeadersComeFirst(reply, i);
    ParsedHeadersAreClean(Rendered(reply));
    assert !AllClean(WireHeaders(reply));
  }

  lemma CleanSnoc(hs: seq<Header>, h: Header)
    requires AllClean(hs) && Clean(h)
    ensures AllClean(hs + [h])
  {
  }

  lemma WireHeadersAreClean(reply: Reply)
    requires HeadersSurvive(reply)
    ensures AllClean(WireHeaders(reply))
  {
    FixedHeadersAreClean(if reply.body.Buffered? then |reply.body.bytes| else |REFUSAL|);
    if reply.body.Buffered? {
      CleanSnoc(reply.headers, JSON_TYPE);
      CleanSnoc(Typed(reply.headers), ROBOTS);
      CleanSnoc(Typed(reply.headers) + [ROBOTS], ContentLength(|reply.body.bytes|));
    }
  }

  /**
    Parsing a written reply gives back its status, its headers in order with the added ones, and its
    exact body (none for a 304) if and only if every header of the reply is clean, whatever the body holds.
    */
  lemma ReplyRoundTripIff(reply: Reply)
    ensures PartsOf(Rendered(reply)) == Expected(reply) <==> HeadersSurvive(reply)
  {
    if HeadersSurvive(reply) {
      WireHeadersAreClean(reply);
      StatusLineReadsBack(WireStatus(reply));
      MessageReadsBack(StatusLine(WireStatus(reply)), WireHeaders(reply), WireBody(reply));
      BodyIsWhole(reply);
    } else {
      var i :| 0 <= i < |reply.headers| && !Clean(reply.headers[i]);
      UncleanHeaderIsLost(reply, i);
    }
  }

  // ------------------------------------------------------------ formatting a request

  /** `HeaderValue::to_str`: only visible ASCII and tabs. */
  predicate VisibleAscii(s: string) {
    forall i :: 0 <= i < |s| ==> s[i] == '\t' || 0x20 <= s[i] as int < 0x7F
  }

  /** A header goes through unless it is a length, which is forced, or is not text. */
  predicate Passes(h: Header) {
    h.name != "content-length" && VisibleAscii(h.value)
  }

  function Passing(hs: seq<Header>): seq<Header> {
    if hs == [] then []
    else Passing(hs[..|hs| - 1]) + (if Passes(hs[|hs| - 1]) then [hs[|hs| - 1]] else [])
  }

  function RequestLine(verb: string, uri: string): string {
    verb + " " + uri + " " + "HTTP/1.1"
  }

  function RequestHead(verb: string, uri: string, headers: seq<Header>, bodyLen: nat): string {
    Message(RequestLine(verb, uri), Passing(headers) + [ContentLength(bodyLen)], [])
  }

  method FormatH1Request(verb: string, uri: string, headers: seq<Header>, bodyLen: nat) returns (buf: string)
    ensures buf == RequestHead(verb, uri, headers, bodyLen)
  {
    ghost var start := RequestLine(verb, uri);
    StartOnly(start);
    buf := RequestLine(verb, uri) + "\r\n";
    for i := 0 to |headers|
      invariant buf == Terminated([start] + Lines(Passing(headers[..i])))
    {
      assert headers[..i + 1][..i] == headers[..i];
      ghost var passed := Passing(headers[..i]);
      assert Passing(headers[..i + 1]) == passed + (if Passes(headers[i]) then [headers[i]] else []);
      assert passed + [] == passed;
      if headers[i].name == "content-length" {
        continue;
      }
      if VisibleAscii(headers[i].value) {
        buf := PushHeader(buf, headers[i], start, passed);
      }
    }
    assert headers[..|headers|] == headers;
    buf := PushHeader(buf, ContentLength(bodyLen), start, Passing(headers));
    buf := Close(buf, [], start, Passing(headers) + [ContentLength(bodyLen)]);
  }

  // ------------------------------------------------------------ receiving it

  const LENGTH_PREFIX: string := "content-length: "

  datatype Target = Target(path: string, query: string, slashed: bool)

  /** What the front of the handler makes of a connection. */
  datatype Received =
    | Accepted(verb: string, target: Target, body: string)
    | TooLarge(limitMib: nat)   // 413
    | CutShort                  // 400
    | Dropped                   // no reply

  /** HEAD is routed as GET. */
  function Routed(verb: string): string {
    if SameName(verb, "HEAD") then "GET" else verb
  }

  function TrimSlashes(s: string): string {
    if s != [] && s[|s| - 1] == '/' then TrimSlashes(s[..|s| - 1]) else s
  }

  /** The query cut off at the first question mark, and trailing slashes, save on the root. */
  function TargetOf(raw: string): Target {
    var mark := Find(raw, '?');
    var path := if mark.Some? then raw[..mark.value] else raw;
    var query := if mark.Some? then raw[mark.value + 1..] else [];
    var slashed := |path| > 1 && path[|path| - 1] == '/';
    Target(if slashed then TrimSlashes(path) else path, query, slashed)
  }

  predicate EndsWith(s: string, t: string) {
    |t| <= |s| && s[|s| - |t|..] == t
  }

  function BodyCap(verb: string, path: string): nat {
    if verb == "POST" && EndsWith(path, "/files") then UPLOAD_MAX_BYTES else NON_UPLOAD_MAX_BODY_BYTES
  }

  /** The declared length after one more header line: a length line replaces it, by 0 when unreadable. */
  function LengthAfter(line: string, length: nat): nat {
    var lower := ToLower(line);
    if StartsWith(lower, LENGTH_PREFIX) then
      var n := ParseNat(Trim(lower[|LENGTH_PREFIX|..]), USIZE_MAX);
      if n.Some? then n.value else 0
    else length
  }

  lemma ReadLineShrinks(s: string)
    ensures s != [] ==> |ReadLine(s).1| < |s|
    ensures s == [] ==> ReadLine(s) == ([], [])
  {
  }

  /** The header loop: lines up to a blank one, or the end of the input. */
  function HeaderLoop(s: string, length: nat): (nat, string)
    decreases |s|
  {
    var (line, rest) := ReadLine(s);
    ReadLineShrinks(s);
    if Trim(line) == [] then (length, rest) else HeaderLoop(rest, LengthAfter(line, length))
  }

  /** What follows the headers: the target, the cap, and the declared number of body bytes. */
  function Admit(words: seq<string>, length: nat, after: string): Received {
    if |words| < 2 then Dropped
    else
      var verb, target := Routed(words[0]), TargetOf(words[1]);
      var cap := BodyCap(verb, target.path);
      if length > cap then TooLarge(cap / MIB)
      else if length > |after| then CutShort
      else Accepted(verb, target, after[..length])
  }

  function ReceivedOf(wire: string): Received {
    var (requestLine, rest) := ReadLine(wire);
    var (length, after) := HeaderLoop(rest, 0);
    Admit(Words(Trim(requestLine)), length, after)
  }

  method ReadHeaders(s: string) returns (contentLength: nat, rest: string)
    ensures (contentLength, rest) == HeaderLoop(s, 0)
  {
    contentLength, rest := 0, s;
    while true
      invariant HeaderLoop(rest, contentLength) == HeaderLoop(s, 0)
      decreases |rest|
    {
      ReadLineShrinks(rest);
      var (line, more) := ReadLine(rest);
      if Trim(line) == [] {
        return contentLength, more;
      }
      rest := more;
      contentLength := LengthAfter(line, contentLength);
    }
  }

  method Receive(wire: string) returns (r: Received)
    ensures r == ReceivedOf(wire)
  {
    var (requestLine, head) := ReadLine(wire);
    var contentLength, rest := ReadHeaders(head);
    r := Answer(Words(Trim(requestLine)), contentLength, rest);
  }

  method Answer(words: seq<string>, contentLength: nat, rest: string) returns (r: Received)
    ensures r == Admit(words, contentLength, rest)
  {
    if |words| < 2 {
      return Dropped;
    }
    var verb, target := Routed(words[0]), TargetOf(words[1]);
    var cap := BodyCap(verb, target.path);
    if contentLength > cap {
      return TooLarge(cap / MIB);
    }
    if contentLength > |rest| {
      return CutShort;
    }
    r := Accepted(verb, target, rest[..contentLength]);
  }

  // ------------------------------------------------------------ the request round trip

  lemma LowerDigits(s: string)
    requires AllDigits(s)
    ensures ToLower(s) == s
  {
  }

  lemma LowerLengthName()
    ensures ToLower("Content-Length: ") == LENGTH_PREFIX
  {
  }

  /** A length line in any case: the name lowered, then the same digits and line end. */
  lemma LowerLengthLine(value: string)
    requires AllDigits(value)
    ensures ToLower("Content-Length" + ": " + value + CRLF) == LENGTH_PREFIX + (value + CRLF)
  {
    LowerDigits(value);
    LowerLengthName();
    var name := "Content-Length: ";
    assert "Content-Length" + ": " == name;
    var line := name + value + CRLF;
    forall i | 0 <= i < |line| ensures ToLower(line)[i] == (LENGTH_PREFIX + (value + CRLF))[i] {
      assert i < |name| ==> line[i] == name[i] && ToLower(name)[i] == Lower(name[i]);
    }
  }

  /** What a line read in lower case declares. */
  lemma LowerLineDeclares(line: string, value: string, n: nat, length: nat)
    requires ToLower(line) == LENGTH_PREFIX + (value + CRLF)
    requires Trimmed(value) && ParseNat(value, USIZE_MAX) == Some(n)
    ensures LengthAfter(line, length) == n
  {
    var rest := value + CRLF;
    assert ToLower(line)[..|LENGTH_PREFIX|] == LENGTH_PREFIX;
    assert ToLower(line)[|LENGTH_PREFIX|..] == rest;
    TrimTail(value, CRLF);
  }

  /** The forced length line declares exactly the body's length. */
  lemma LengthLineDeclares(n: nat, length: nat)
    requires n <= USIZE_MAX
    ensures LengthAfter(Line(ContentLength(n)) + CRLF, length) == n
  {
    DecimalValue(n);
    DigitsAreWord(n);
    DecimalRoundTrip(n, USIZE_MAX);
    LowerLengthLine(Decimal(n));
    LowerLineDeclares(Line(ContentLength(n)) + CRLF, Decimal(n), n, length);
  }

  function LengthAfterAll(hs: seq<Header>, length: nat): nat {
    if hs == [] then length else LengthAfterAll(hs[1..], LengthAfter(Line(hs[0]) + CRLF, length))
  }

  /** Whatever the client's own headers claimed, the forced length comes last and wins. */
  lemma {:induction false} ForcedLengthWins(hs: seq<Header>, n: nat, length: nat)
    requires n <= USIZE_MAX
    ensures LengthAfterAll(hs + [ContentLength(n)], length) == n
  {
    LengthLineDeclares(n, length);
    if hs == [] {
      assert [ContentLength(n)][1..] == [];
    } else {
      assert (hs + [ContentLength(n)])[1..] == hs[1..] + [ContentLength(n)];
      ForcedLengthWins(hs[1..], n, LengthAfter(Line(hs[0]) + CRLF, length));
    }
  }

  ghost predicate Unbroken(hs: seq<Header>) {
    forall i :: 0 <= i < |hs| ==> '\n' !in Line(hs[i])
  }

  lemma LinesTail(hs: seq<Header>)
    requires hs != []
    ensures Terminated(Lines(hs)) == Line(hs[0]) + CRLF + Terminated(Lines(hs[1..]))
  {
    assert Lines(hs)[1..] == Lines(hs[1..]);
  }

  lemma LineIsNotBlank(h: Header)
    ensures Trim(Line(h) + CRLF) != []
  {
    assert (Line(h) + CRLF)[|h.name|] == ':';
    TrimKeeps(Line(h) + CRLF, |h.name|);
  }

  /** The header loop reads every header line, stops at the blank line, and leaves exactly the body. */
  lemma {:induction false} HeaderLoopReads(hs: seq<Header>, body: string, length: nat)
    requires Unbroken(hs)
    ensures HeaderLoop(Terminated(Lines(hs)) + CRLF + body, length) == (LengthAfterAll(hs, length), body)
  {
    if hs == [] {
      assert Terminated(Lines(hs)) + CRLF + body == [] + CRLF + body;
      ReadLineOf([], body);
      assert [] + CRLF == CRLF;
      TrimBlank(CRLF);
    } else {
      var rest := Terminated(Lines(hs[1..])) + CRLF + body;
      LinesTail(hs);
      Regroup(Line(hs[0]), Terminated(Lines(hs[1..])), body);
      ReadLineOf(Line(hs[0]), rest);
      LineIsNotBlank(hs[0]);
      HeaderLoopReads(hs[1..], body, LengthAfter(Line(hs[0]) + CRLF, length));
    }
  }

  lemma {:induction false} PassingIsUnbroken(hs: seq<Header>)
    requires forall i :: 0 <= i < |hs| ==> '\n' !in hs[i].name
    ensures Unbroken(Passing(hs))
  {
    if hs != [] {
      PassingIsUnbroken(hs[..|hs| - 1]);
    }
  }

  lemma RequestLineReadsBack(verb: string, uri: string)
    requires IsWord(verb) && IsWord(uri)
    ensures '\n' !in RequestLine(verb, uri)
    ensures var words := Words(Trim(RequestLine(verb, uri) + CRLF)); |words| >= 2 && words[0] == verb && words[1] == uri
  {
    var line := RequestLine(verb, uri);
    assert line[0] == verb[0] && line[|line| - 1] == '1';
    TrimTail(line, CRLF);
    TwoWords(verb, uri, "HTTP/1.1");
    var words := Words(line);
    assert words[0] == words[..2][0] && words[1] == words[..2][1];
  }

  /** Accepted whole, or refused for its size. */
  function Outcome(verb: string, uri: string, body: string): Received {
    var cap := BodyCap(Routed(verb), TargetOf(uri).path);
    if |body| > cap then TooLarge(cap / MIB) else Accepted(Routed(verb), TargetOf(uri), body)
  }

  lemma RequestText(start: string, hs: seq<Header>, body: string)
    ensures Message(start, hs, []) + body == start + CRLF + (Terminated(Lines(hs)) + CRLF + body)
  {
    var lines := Terminated(Lines(hs));
    assert ([start] + Lines(hs))[1..] == Lines(hs);
    assert start + CRLF + lines + CRLF + [] + body == start + CRLF + (lines + CRLF + body);
  }

  lemma LengthLineIsUnbroken(n: nat)
    ensures '\n' !in Line(ContentLength(n))
  {
    DigitsAreWord(n);
    assert NoBreaks("Content-Length") && NoBreaks(": ");
    assert NoBreaks(Line(ContentLength(n)));
  }

  lemma UnbrokenSnoc(hs: seq<Header>, h: Header)
    requires Unbroken(hs) && '\n' !in Line(h)
    ensures Unbroken(hs + [h])
  {
  }

  lemma ForcedLengthReads(hs: seq<Header>, body: string)
    requires Unbroken(hs) && |body| <= USIZE_MAX
    ensures HeaderLoop(Terminated(Lines(hs + [ContentLength(|body|)])) + CRLF + body, 0) == (|body|, body)
  {
    LengthLineIsUnbroken(|body|);
    UnbrokenSnoc(hs, ContentLength(|body|));
    var all := hs + [ContentLength(|body|)];
    ForcedLengthWins(hs, |body|, 0);
    HeaderLoopReads(all, body, 0);
  }

  /**
    A formatted request with its body behind it is received as that verb and target with exactly that
    body, or refused with 413 when the body is over the route's cap, whatever headers came along.
    */
  lemma RequestRoundTrip(verb: string, uri: string, headers: seq<Header>, body: string)
    requires IsWord(verb) && IsWord(uri)
    requires forall i :: 0 <= i < |headers| ==> '\n' !in headers[i].name
    requires |body| <= USIZE_MAX
    ensures ReceivedOf(RequestHead(verb, uri, headers, |body|) + body) == Outcome(verb, uri, body)
  {
    var start := RequestLine(verb, uri);
    var hs := Passing(headers) + [ContentLength(|body|)];
    RequestText(start, hs, body);
    ReadLineOf(start, Terminated(Lines(hs)) + CRLF + body);
    PassingIsUnbroken(headers);
    ForcedLengthReads(Passing(headers), body);
    AdmitsWhole(verb, uri, body);
  }

  lemma AdmitsWhole(verb: string, uri: string, body: string)
    requires IsWord(verb) && IsWord(uri)
    ensures Admit(Words(Trim(RequestLine(verb, uri) + CRLF)), |body|, body) == Outcome(verb, uri, body)
  {
    RequestLineReadsBack(verb, uri);
    assert body[..|body|] == body;
  }
}
