/** What a tab is for: `[override:]phase[/role]`, parsed from operator text and shown back. */
module Assignments {
  import opened Text

  datatype Assignment = Assignment(over: Option<string>, phase: string, role: string)

  function DropControls(s: string): string {
    if s == [] then [] else (if IsControl(s[0]) then [] else [s[0]]) + DropControls(s[1..])
  }

  /** The part before the first slash. */
  function Head(s: string): string {
    match Find(s, '/') case Some(i) => s[..i] case None => s
  }

  /** The override, when a colon comes before the first slash, and what follows it. */
  function SplitOver(s: string): (Option<string>, string) {
    match Find(Head(s), ':')
    case Some(i) => (Some(s[..i]), s[i + 1..])
    case None => (None, s)
  }

  function SplitRole(s: string): (string, string) {
    match Find(s, '/') case Some(i) => (s[..i], s[i + 1..]) case None => (s, "")
  }

  function NonEmpty(s: Option<string>): Option<string> {
    if s.Some? && Trim(s.value) != "" then Some(Trim(s.value)) else None
  }

  /** The grammar, on text already stripped of control characters and trimmed. */
  function ParseTrimmed(t: string): Assignment {
    var (over, rest) := SplitOver(t);
    var (phase, role) := SplitRole(rest);
    Assignment(NonEmpty(over), Trim(phase), Trim(role))
  }

  function Parse(raw: string): Assignment {
    ParseTrimmed(Trim(DropControls(raw)))
  }

  function Show(a: Assignment): string {
    (if a.over.Some? then a.over.value + ":" else "")
    + a.phase
    + (if a.role != "" then "/" + a.role else "")
  }

  // ------------------------------------------------------------ what parsing can produce

  ghost predicate NoControls(s: string) {
    forall i :: 0 <= i < |s| ==> !IsControl(s[i])
  }

  ghost predicate Clean(s: string) {
    Trimmed(s) && NoControls(s)
  }

  /** The values an assignment parsed from some text can have. */
  ghost predicate Parsed(a: Assignment) {
    && (a.over.Some? ==> Clean(a.over.value) && a.over.value != "" && ':' !in a.over.value && '/' !in a.over.value)
    && Clean(a.phase) && '/' !in a.phase
    && Clean(a.role)
  }

  lemma {:induction false} DropControlsCleans(s: string)
    ensures NoControls(DropControls(s)) && |DropControls(s)| <= |s|
    ensures NoControls(s) <==> DropControls(s) == s
    ensures |DropControls(s)| == |s| ==> DropControls(s) == s
  {
    if s != [] {
      DropControlsCleans(s[1..]);
      assert s == [s[0]] + s[1..];
      if NoControls(s) {
        forall i | 0 <= i < |s[1..]| ensures !IsControl(s[1..][i]) {
          assert s[i + 1] == s[1..][i];
        }
      }
      if DropControls(s) == s { assert !IsControl(s[0]); }
    }
  }

  /** Trimming a control-free text keeps it control-free, adds no character, and is the identity when nothing is cut. */
  lemma TrimCleans(s: string)
    requires NoControls(s)
    ensures Clean(Trim(s)) && |Trim(s)| <= |s|
    ensures forall c :: c !in s ==> c !in Trim(s)
    ensures |Trim(s)| == |s| ==> Trim(s) == s
  {
    var from, to := TrimCuts(s);
  }

  lemma PartsAreClean(t: string)
    requires NoControls(t)
    ensures var (over, rest) := SplitOver(t);
            var (phase, role) := SplitRole(rest);
            && NoControls(rest) && NoControls(phase) && NoControls(role) && '/' !in phase
            && (over.Some? ==> NoControls(over.value) && ':' !in over.value && '/' !in over.value)
  {
  }

  lemma ParseIsParsed(raw: string)
    ensures Parsed(Parse(raw))
  {
    DropControlsCleans(raw);
    TrimCleans(DropControls(raw));
    var t := Trim(DropControls(raw));
    PartsAreClean(t);
    var (over, rest) := SplitOver(t);
    var (phase, role) := SplitRole(rest);
    if over.Some? { TrimCleans(over.value); }
    TrimCleans(phase);
    TrimCleans(role);
  }

  lemma CleanIsKept(s: string)
    requires Clean(s)
    ensures Parse(s) == ParseTrimmed(s)
  {
    DropControlsCleans(s);
    TrimFixed(s);
  }

  /** A tail is what follows the phase: nothing, or a slash and a clean role. */
  ghost predicate IsTail(tail: string) {
    tail == "" || (tail[0] == '/' && Clean(tail[1..]))
  }

  lemma NoControlsAppend(a: string, b: string)
    requires NoControls(a) && NoControls(b)
    ensures NoControls(a + b)
  {
  }

  lemma TailIsClean(tail: string)
    requires IsTail(tail)
    ensures NoControls(tail) && (tail != "" ==> !IsSpace(tail[|tail| - 1]))
  {
    if tail != "" {
      assert tail == [tail[0]] + tail[1..];
    }
  }

  lemma JoinIsClean(front: string, tail: string)
    requires Clean(front) && IsTail(tail)
    ensures Clean(front + tail)
  {
    TailIsClean(tail);
    NoControlsAppend(front, tail);
  }

  lemma OverIsClean(over: string, phase: string)
    requires Clean(over) && Clean(phase)
    ensures Clean(over + ":" + phase)
  {
    NoControlsAppend(over, ":");
    NoControlsAppend(over + ":", phase);
    assert !IsSpace(':');
  }

  /** Text with an override part reads back as its three parts. */
  lemma ParseWithOver(over: string, phase: string, tail: string)
    requires Clean(over) && ':' !in over && '/' !in over
    requires Clean(phase) && '/' !in phase && IsTail(tail)
    ensures Parse(over + ":" + phase + tail) ==
            Assignment(if over == "" then None else Some(over), phase, if tail == "" then "" else tail[1..])
  {
    OverIsClean(over, phase);
    JoinIsClean(over + ":" + phase, tail);
    CleanIsKept(over + ":" + phase + tail);
    SplitWithOver(over, phase, tail);
    SplitRoleOf(phase, tail);
    TrimFixed(over);
  }

  lemma SplitWithOver(over: string, phase: string, tail: string)
    requires ':' !in over && '/' !in over && '/' !in phase && (tail == "" || tail[0] == '/')
    ensures SplitOver(over + ":" + phase + tail) == (Some(over), phase + tail)
  {
    var front := over + ":" + phase;
    HeadOf(front, tail);
    assert front[..|over|] == over;
    FindFirst(front, ':', |over|);
    assert (front + tail)[|over| + 1..] == phase + tail;
    assert (front + tail)[..|over|] == over;
  }

  /** Text with no colon before the first slash reads back as phase and role. */
  lemma ParsePlain(phase: string, tail: string)
    requires Clean(phase) && '/' !in phase && ':' !in phase && IsTail(tail)
    ensures Parse(phase + tail) == Assignment(None, phase, if tail == "" then "" else tail[1..])
  {
    JoinIsClean(phase, tail);
    CleanIsKept(phase + tail);
    HeadOf(phase, tail);
    SplitRoleOf(phase, tail);
  }

  lemma HeadOf(front: string, tail: string)
    requires '/' !in front && (tail == "" || tail[0] == '/')
    ensures Head(front + tail) == front
  {
    SplitRoleCut(front, tail);
  }

  lemma SplitRoleCut(front: string, tail: string)
    requires '/' !in front && (tail == "" || tail[0] == '/')
    ensures Find(front + tail, '/') == if tail == "" then None else Some(|front|)
    ensures (front + tail)[..|front|] == front
    ensures tail != "" ==> (front + tail)[|front| + 1..] == tail[1..]
  {
    if tail == "" {
      assert front + tail == front;
    } else {
      assert (front + tail)[..|front|] == front;
      FindFirst(front + tail, '/', |front|);
    }
  }

  lemma SplitRoleOf(phase: string, tail: string)
    requires Trimmed(phase) && '/' !in phase && (tail == "" || (tail[0] == '/' && Trimmed(tail[1..])))
    ensures var (p, r) := SplitRole(phase + tail);
            Trim(p) == phase && Trim(r) == if tail == "" then "" else tail[1..]
  {
    SplitRoleCut(phase, tail);
    TrimFixed(phase);
    if tail == "" {
      assert phase + tail == phase;
    } else {
      TrimFixed(tail[1..]);
    }
  }

  /** Every such value is parsed from some text: the set is exact. */
  lemma ParsedIsReachable(a: Assignment) returns (raw: string)
    requires Parsed(a)
    ensures Parse(raw) == a
  {
    var over := if a.over.Some? then a.over.value else "";
    var tail := "/" + a.role;
    raw := over + ":" + a.phase + tail;
    assert tail[1..] == a.role;
    ParseWithOver(over, a.phase, tail);
  }

  // ------------------------------------------------------------ round trip

  function Tail(a: Assignment): string {
    if a.role != "" then "/" + a.role else ""
  }

  lemma ShowParts(a: Assignment)
    ensures a.over.Some? ==> Show(a) == a.over.value + ":" + a.phase + Tail(a)
    ensures a.over.None? ==> Show(a) == a.phase + Tail(a)
  {
    if a.over.None? { assert "" + a.phase == a.phase; }
  }

  /** A parsed assignment reads back from its own text exactly when it has an override or a colon-free phase. */
  lemma RoundTripIff(a: Assignment)
    requires Parsed(a)
    ensures Parse(Show(a)) == a <==> a.over.Some? || ':' !in a.phase
  {
    ShowParts(a);
    assert Tail(a) != "" ==> Tail(a)[1..] == a.role;
    if a.over.Some? {
      ParseWithOver(a.over.value, a.phase, Tail(a));
    } else if ':' !in a.phase {
      ParsePlain(a.phase, Tail(a));
    } else {
      ColonIsLost(a);
    }
  }

  lemma SplitColon(phase: string, tail: string, i: nat)
    requires '/' !in phase && Find(phase, ':') == Some(i) && (tail == "" || tail[0] == '/')
    ensures SplitOver(phase + tail) == (Some(phase[..i]), phase[i + 1..] + tail)
  {
    HeadOf(phase, tail);
    CutIn(phase, tail, i);
  }

  lemma CutIn(front: string, tail: string, i: nat)
    requires i < |front|
    ensures (front + tail)[..i] == front[..i] && (front + tail)[i + 1..] == front[i + 1..] + tail
  {
  }

  lemma RoleAfter(left: string, tail: string)
    requires '/' !in left && (tail == "" || tail[0] == '/')
    ensures SplitRole(left + tail).0 == left
  {
    SplitRoleCut(left, tail);
    if tail == "" { assert left + tail == left; }
  }

  /** Without an override, a colon in the phase is read as one. */
  lemma ColonIsLost(a: Assignment)
    requires Parsed(a) && a.over.None? && ':' in a.phase
    ensures |Parse(Show(a)).phase| < |a.phase|
  {
    ShowParts(a);
    var tail := Tail(a);
    assert tail != "" ==> tail[1..] == a.role;
    JoinIsClean(a.phase, tail);
    CleanIsKept(a.phase + tail);
    var i := Find(a.phase, ':').value;
    SplitColon(a.phase, tail, i);
    RoleAfter(a.phase[i + 1..], tail);
    TrimShrinks(a.phase[i + 1..]);
  }

  lemma TrimShrinks(s: string)
    ensures |Trim(s)| <= |s|
    ensures |Trim(s)| == |s| ==> Trim(s) == s
  {
    var from, to := TrimCuts(s);
  }

  // ------------------------------------------------------------ showing after parsing

  function Normalize(text: string): string {
    Show(Parse(text))
  }

  lemma Rejoin(s: string, i: nat, c: char)
    requires i < |s| && s[i] == c
    ensures s == s[..i] + [c] + s[i + 1..]
  {
  }

  lemma OverRejoins(t: string)
    ensures var (over, rest) := SplitOver(t); t == (if over.Some? then over.value + ":" else "") + rest
  {
    var colon := Find(Head(t), ':');
    if colon.Some? {
      Rejoin(t, colon.value, ':');
      assert [':'] == ":";
    } else {
      assert "" + t == t;
    }
  }

  lemma RoleRejoins(rest: string)
    ensures var (phase, role) := SplitRole(rest); rest == phase + "/" + role || (rest == phase && role == "")
  {
    var slash := Find(rest, '/');
    if slash.Some? {
      Rejoin(rest, slash.value, '/');
      assert ['/'] == "/";
    }
  }

  /** How long the text of three parts is. */
  function ShownLength(over: Option<string>, phase: string, role: string): nat {
    (if over.Some? then |over.value| + 1 else 0) + |phase| + (if role != "" then |role| + 1 else 0)
  }

  lemma ShowLength(a: Assignment)
    ensures |Show(a)| == ShownLength(a.over, a.phase, a.role)
  {
  }

  lemma ShowShrinks(t: string)
    ensures |Show(ParseTrimmed(t))| <= |t|
    ensures |Show(ParseTrimmed(t))| == |t| ==> Show(ParseTrimmed(t)) == t
  {
    var (over, rest) := SplitOver(t);
    var (phase, role) := SplitRole(rest);
    OverRejoins(t);
    RoleRejoins(rest);
    PartsShrink(t, over, rest, phase, role);
  }

  /** What one part takes in the shown text, its mark included. */
  lemma OverShrinks(over: Option<string>)
    ensures var a := NonEmpty(over);
      && (a.Some? ==> over.Some?)
      && (over.Some? && a.Some? ==> |a.value| <= |over.value| && (|a.value| == |over.value| ==> a == over))
  {
    if over.Some? { TrimShrinks(over.value); }
  }

  lemma PartsLength(t: string, over: Option<string>, rest: string, phase: string, role: string)
    requires t == (if over.Some? then over.value + ":" else "") + rest
    requires rest == phase + "/" + role || (rest == phase && role == "")
    ensures |t| >= ShownLength(over, phase, role)
  {
  }

  /** No part grew, so the text did not; and if it kept its length, every part is the same. */
  lemma LengthSettles(a: Assignment, over: Option<string>, phase: string, role: string, length: nat)
    requires a.over.Some? ==> over.Some? && |a.over.value| <= |over.value|
    requires a.over.Some? && |a.over.value| == |over.value| ==> a.over == over
    requires |a.phase| <= |phase| && (|a.phase| == |phase| ==> a.phase == phase)
    requires |a.role| <= |role| && (|a.role| == |role| ==> a.role == role)
    requires length >= ShownLength(over, phase, role)
    ensures ShownLength(a.over, a.phase, a.role) <= length
    ensures ShownLength(a.over, a.phase, a.role) == length ==>
      a == Assignment(over, phase, role) && length == ShownLength(over, phase, role)
  {
  }

  lemma SlashCounts(rest: string, phase: string, role: string)
    requires rest == phase + "/" + role || (rest == phase && role == "")
    requires |rest| == |phase| + (if role != "" then |role| + 1 else 0)
    ensures rest == phase + (if role != "" then "/" + role else "")
  {
    if role != "" {
      assert phase + "/" + role == phase + ("/" + role);
    } else {
      assert phase + "" == phase;
    }
  }

  lemma PartsShrink(t: string, over: Option<string>, rest: string, phase: string, role: string)
    requires t == (if over.Some? then over.value + ":" else "") + rest
    requires rest == phase + "/" + role || (rest == phase && role == "")
    ensures var a := Assignment(NonEmpty(over), Trim(phase), Trim(role));
            |Show(a)| <= |t| && (|Show(a)| == |t| ==> Show(a) == t)
  {
    var a := Assignment(NonEmpty(over), Trim(phase), Trim(role));
    OverShrinks(over);
    TrimShrinks(phase);
    TrimShrinks(role);
    ShowLength(a);
    PartsLength(t, over, rest, phase, role);
    LengthSettles(a, over, phase, role, |t|);
    if |Show(a)| == |t| {
      SlashCounts(rest, phase, role);
      ShowIsJoin(a, rest, t);
    }
  }

  lemma ShowIsJoin(a: Assignment, rest: string, t: string)
    requires rest == a.phase + Tail(a)
    requires t == (if a.over.Some? then a.over.value + ":" else "") + rest
    ensures Show(a) == t
  {
    ShowParts(a);
    if a.over.Some? {
      assert a.over.value + ":" + a.phase + Tail(a) == a.over.value + ":" + (a.phase + Tail(a));
    }
  }

  /** Showing after parsing never lengthens a text, and keeps its length only when it keeps the text. */
  lemma NormalizeShrinks(text: string)
    ensures |Normalize(text)| <= |text|
    ensures |Normalize(text)| == |text| ==> Normalize(text) == text
  {
    DropControlsCleans(text);
    TrimShrinks(DropControls(text));
    ShowShrinks(Trim(DropControls(text)));
  }

  function Iterate(f: string -> string, n: nat, text: string): string {
    if n == 0 then text else Iterate(f, n - 1, f(text))
  }

  /** A function that shrinks every text it changes settles, in at most as many steps as the text has characters. */
  lemma {:induction false} ShrinkingSettles(f: string -> string, text: string) returns (n: nat)
    requires forall s :: |f(s)| <= |s| && (|f(s)| == |s| ==> f(s) == s)
    ensures n <= |text| && f(Iterate(f, n, text)) == Iterate(f, n, text)
    decreases |text|
  {
    if f(text) == text {
      n := 0;
    } else {
      var m := ShrinkingSettles(f, f(text));
      n := m + 1;
    }
  }

  /** Iterating from any text reaches a text that stands for itself, and whose value reads back from it. */
  lemma NormalizeSettles(text: string) returns (n: nat, settled: string)
    ensures n <= |text| && settled == Iterate(Normalize, n, text)
    ensures Show(Parse(settled)) == settled && Parse(Show(Parse(settled))) == Parse(settled)
  {
    forall s ensures |Normalize(s)| <= |s| && (|Normalize(s)| == |s| ==> Normalize(s) == s) { NormalizeShrinks(s); }
    n := ShrinkingSettles(Normalize, text);
    settled := Iterate(Normalize, n, text);
  }

  lemma ReadsAsOverB()
    ensures Parse("b:c/d") == Assignment(Some("b"), "c", "d")
  {
    assert "b" + ":" + "c" + "/d" == "b:c/d" && "/d"[1..] == "d";
    ParseWithOver("b", "c", "/d");
  }

  lemma ReadsWithColonPhase()
    ensures Parse(":b:c/d") == Assignment(None, "b:c", "d")
  {
    assert "" + ":" + "b:c" + "/d" == ":b:c/d" && "/d"[1..] == "d";
    ParseWithOver("", "b:c", "/d");
  }

  lemma ShowsColonPhase()
    ensures Show(Assignment(None, "b:c", "d")) == "b:c/d"
  {
    assert "" + "b:c" + ("/" + "d") == "b:c/d";
  }

  /** Once is not always enough: ":b:c/d" shows as "b:c/d", which is another assignment. */
  lemma OnceIsNotEnough()
    ensures Parse(":b:c/d") == Assignment(None, "b:c", "d")
    ensures Show(Assignment(None, "b:c", "d")) == "b:c/d"
    ensures Parse("b:c/d") == Assignment(Some("b"), "c", "d")
  {
    ReadsWithColonPhase();
    ShowsColonPhase();
    ReadsAsOverB();
  }
}
