/**
  The text of an HTTP/1.1 message head: lines ended by CR LF, words, and letter case.
  One unit is one decoded character in a head and one byte in a body.
  */
module HttpText {
  import opened Text

  const CRLF: string := "\r\n"
  const BLANK: string := "\r\n\r\n"

  predicate At(s: string, p: string, i: nat) {
    i + |p| <= |s| && s[i..i + |p|] == p
  }

  function FirstFrom(s: string, p: string, i: nat): (r: Option<nat>)
    ensures r.Some? ==> r.value >= i && At(s, p, r.value) && forall j :: i <= j < r.value ==> !At(s, p, j)
    ensures r.None? ==> forall j :: i <= j ==> !At(s, p, j)
    decreases |s| - i
  {
    if i + |p| > |s| then None
    else if At(s, p, i) then Some(i)
    else FirstFrom(s, p, i + 1)
  }

  /** `windows(n).position(..)` and `str::find`: the first place `p` stands in `s`. */
  function First(s: string, p: string): Option<nat> {
    FirstFrom(s, p, 0)
  }

  lemma FirstIs(s: string, p: string, i: nat)
    requires At(s, p, i) && forall j :: 0 <= j < i ==> !At(s, p, j)
    ensures First(s, p) == Some(i)
  {
    assert First(s, p).Some?;
  }

  /** No CR LF pair anywhere. */
  ghost predicate OneLine(s: string) {
    forall i :: !At(s, CRLF, i)
  }

  predicate NoBreaks(s: string) {
    forall i :: 0 <= i < |s| ==> s[i] != '\r' && s[i] != '\n'
  }

  lemma AtCrlf(s: string, i: nat)
    ensures At(s, CRLF, i) <==> i + 2 <= |s| && s[i] == '\r' && s[i + 1] == '\n'
  {
    if i + 2 <= |s| {
      assert s[i..i + 2] == [s[i], s[i + 1]];
    }
  }

  lemma AtBlank(s: string, i: nat)
    ensures At(s, BLANK, i) <==> At(s, CRLF, i) && At(s, CRLF, i + 2)
  {
    AtCrlf(s, i);
    AtCrlf(s, i + 2);
    if i + 4 <= |s| {
      assert s[i..i + 4] == [s[i], s[i + 1], s[i + 2], s[i + 3]];
    }
  }

  lemma NoBreaksOneLine(s: string)
    requires NoBreaks(s)
    ensures OneLine(s)
  {
    forall i: nat ensures !At(s, CRLF, i) {
      AtCrlf(s, i);
    }
  }

  /** Where the pairs of `line CRLF rest` stand: at the end of the line, then those of the rest. */
  lemma PairsAfterLine(line: string, rest: string, i: nat)
    requires OneLine(line)
    ensures var s := line + CRLF + rest;
      At(s, CRLF, i) <==> i == |line| || (i >= |line| + 2 && At(rest, CRLF, i - |line| - 2))
  {
    var s := line + CRLF + rest;
    AtCrlf(s, i);
    AtCrlf(line, i);
    if i >= |line| + 2 {
      AtCrlf(rest, i - |line| - 2);
      assert s[|line| + 2..] == rest;
    }
    assert s[|line|] == '\r' && s[|line| + 1] == '\n';
  }

  // ------------------------------------------------------------ lines

  /** `str::split("\r\n")`. */
  function SplitLines(s: string): (lines: seq<string>)
    ensures |lines| > 0
    ensures forall i :: 0 <= i < |lines| ==> OneLine(lines[i])
    decreases |s|
  {
    match First(s, CRLF)
    case None => [s]
    case Some(i) => PrefixOneLine(s, i); [s[..i]] + SplitLines(s[i + 2..])
  }

  lemma PrefixOneLine(s: string, n: nat)
    requires n <= |s| && forall j :: 0 <= j < n ==> !At(s, CRLF, j)
    ensures OneLine(s[..n])
  {
    forall i: nat ensures !At(s[..n], CRLF, i) {
      AtCrlf(s[..n], i);
      AtCrlf(s, i);
    }
  }

  /** Each line followed by CR LF. */
  function Terminated(lines: seq<string>): string {
    if lines == [] then [] else lines[0] + CRLF + Terminated(lines[1..])
  }

  /** The lines with CR LF between them. */
  function Joined(lines: seq<string>): string
    requires |lines| > 0
  {
    if |lines| == 1 then lines[0] else lines[0] + CRLF + Joined(lines[1..])
  }

  lemma {:induction false} SplitJoined(lines: seq<string>)
    requires |lines| > 0 && forall i :: 0 <= i < |lines| ==> OneLine(lines[i])
    ensures SplitLines(Joined(lines)) == lines
  {
    var s := Joined(lines);
    if |lines| == 1 {
      assert lines == [s];
    } else {
      var rest := Joined(lines[1..]);
      SplitJoined(lines[1..]);
      forall j | 0 <= j <= |lines[0]| ensures At(s, CRLF, j) <==> j == |lines[0]| {
        PairsAfterLine(lines[0], rest, j);
      }
      FirstIs(s, CRLF, |lines[0]|);
      assert s[|lines[0]| + 2..] == rest && s[..|lines[0]|] == lines[0];
    }
  }

  /** A line is never part of a blank line, except as the one before it. */
  lemma BlankAfterLine(line: string, more: string, i: nat)
    requires OneLine(line)
    ensures var s := line + CRLF + more;
      At(s, BLANK, i) <==> if i < |line| + 2 then i == |line| && At(more, CRLF, 0) else At(more, BLANK, i - |line| - 2)
  {
    AtBlank(line + CRLF + more, i);
    PairsAfterLine(line, more, i);
    PairsAfterLine(line, more, i + 2);
    if i >= |line| + 2 { AtBlank(more, i - |line| - 2); }
  }

  lemma FirstBlank(line: string, more: string)
    requires OneLine(line)
    requires At(more, CRLF, 0) || First(more, BLANK).Some?
    ensures First(line + CRLF + more, BLANK)
         == Some(if At(more, CRLF, 0) then |line| else |line| + 2 + First(more, BLANK).value)
  {
    var s := line + CRLF + more;
    var at := if At(more, CRLF, 0) then |line| else |line| + 2 + First(more, BLANK).value;
    BlankAfterLine(line, more, at);
    forall j: nat | j < at ensures !At(s, BLANK, j) {
      BlankAfterLine(line, more, j);
    }
    FirstIs(s, BLANK, at);
  }

  lemma {:induction false} TerminatedIsJoined(lines: seq<string>)
    requires |lines| > 0
    ensures Terminated(lines) == Joined(lines) + CRLF
  {
    if |lines| > 1 {
      TerminatedIsJoined(lines[1..]);
      assert lines[0] + CRLF + (Joined(lines[1..]) + CRLF) == lines[0] + CRLF + Joined(lines[1..]) + CRLF;
    } else {
      assert Terminated(lines[1..]) == [];
      assert lines[0] + CRLF + [] == lines[0] + CRLF;
    }
  }

  lemma Regroup(line: string, lines: string, body: string)
    ensures (line + CRLF + lines) + CRLF + body == line + CRLF + (lines + CRLF + body)
  {
  }

  lemma NotBlankYet(lines: seq<string>, body: string)
    requires lines != [] && OneLine(lines[0]) && lines[0] != []
    ensures !At(Terminated(lines) + CRLF + body, CRLF, 0)
  {
    Regroup(lines[0], Terminated(lines[1..]), body);
    PairsAfterLine(lines[0], Terminated(lines[1..]) + CRLF + body, 0);
  }

  /** The first blank line of a head of non-empty lines is the one that ends it, whatever the body holds. */
  lemma {:induction false} HeadEnds(lines: seq<string>, body: string)
    requires |lines| > 0 && forall i :: 0 <= i < |lines| ==> OneLine(lines[i])
    requires forall i :: 1 <= i < |lines| ==> lines[i] != []
    ensures First(Terminated(lines) + CRLF + body, BLANK) == Some(|Joined(lines)|)
  {
    var more := Terminated(lines[1..]) + CRLF + body;
    Regroup(lines[0], Terminated(lines[1..]), body);
    if |lines| == 1 {
      assert more == CRLF + body;
      FirstBlank(lines[0], more);
    } else {
      HeadEnds(lines[1..], body);
      NotBlankYet(lines[1..], body);
      FirstBlank(lines[0], more);
    }
  }

  // ------------------------------------------------------------ words and case

  function WordLength(s: string): (n: nat)
    ensures n <= |s|
    ensures s != [] && !IsSpace(s[0]) ==> n > 0
  {
    if s == [] || IsSpace(s[0]) then 0 else 1 + WordLength(s[1..])
  }

  lemma TrimStartShrinks(s: string)
    ensures |TrimStart(s)| <= |s| && (TrimStart(s) == [] || !IsSpace(TrimStart(s)[0]))
  {
  }

  /** `str::split_whitespace`. */
  function Words(s: string): seq<string>
    decreases |s|
  {
    TrimStartShrinks(s);
    var t := TrimStart(s);
    if t == [] then [] else [t[..WordLength(t)]] + Words(t[WordLength(t)..])
  }

  predicate IsWord(s: string) {
    s != [] && forall i :: 0 <= i < |s| ==> !IsSpace(s[i])
  }

  lemma {:induction false} WordLengthOf(w: string, rest: string)
    requires forall i :: 0 <= i < |w| ==> !IsSpace(w[i])
    requires rest == [] || IsSpace(rest[0])
    ensures WordLength(w + rest) == |w|
  {
    if w == [] {
      assert w + rest == rest;
    } else {
      assert (w + rest)[1..] == w[1..] + rest;
      WordLengthOf(w[1..], rest);
    }
  }

  lemma WordsOf(w: string, rest: string)
    requires IsWord(w) && (rest == [] || IsSpace(rest[0]))
    ensures Words(w + rest) == [w] + Words(rest)
  {
    WordLengthOf(w, rest);
    assert TrimStart(w + rest) == w + rest;
    assert (w + rest)[..|w|] == w && (w + rest)[|w|..] == rest;
  }

  lemma WordsAfterSpace(rest: string)
    ensures Words(" " + rest) == Words(rest)
  {
    assert (" " + rest)[1..] == rest;
    assert TrimStart(" " + rest) == TrimStart(rest);
  }

  /** A first word, a second word, and whatever follows a space. */
  lemma TwoWords(a: string, b: string, rest: string)
    requires IsWord(a) && IsWord(b)
    ensures |Words(a + " " + b + " " + rest)| >= 2
    ensures Words(a + " " + b + " " + rest)[..2] == [a, b]
  {
    var s := a + " " + b + " " + rest;
    var after := " " + rest;
    assert s == a + (" " + (b + after));
    WordsOf(a, " " + (b + after));
    WordsAfterSpace(b + after);
    WordsOf(b, after);
    assert Words(s) == [a] + ([b] + Words(after));
  }

  function Lower(c: char): char {
    if 'A' <= c <= 'Z' then (c as int + 32) as char else c
  }

  /** `to_ascii_lowercase`. */
  function ToLower(s: string): (t: string)
    ensures |t| == |s| && forall i :: 0 <= i < |s| ==> t[i] == Lower(s[i])
  {
    seq(|s|, i requires 0 <= i < |s| => Lower(s[i]))
  }

  /** `BufRead::read_line`: up to and including the next newline, or what is left. */
  function ReadLine(s: string): (string, string) {
    match Find(s, '\n')
    case Some(i) => (s[..i + 1], s[i + 1..])
    case None => (s, [])
  }

  lemma ReadLineOf(line: string, rest: string)
    requires '\n' !in line
    ensures ReadLine(line + CRLF + rest) == (line + CRLF, rest)
  {
    var s := line + CRLF + rest;
    assert s[..|line| + 1] == line + ['\r'];
    FindFirst(s, '\n', |line| + 1);
    assert s[..|line| + 2] == line + CRLF;
  }

  /** A line ends with its first newline, with or without a CR before it; the last may have none. */
  lemma ReadLineEnds(line: string, rest: string)
    requires '\n' !in line
    ensures ReadLine(line + "\n" + rest) == (line + "\n", rest) && ReadLine(line) == (line, "")
  {
    var s := line + "\n" + rest;
    assert s[..|line|] == line;
    FindFirst(s, '\n', |line|);
    assert s[..|line| + 1] == line + "\n";
  }
}
