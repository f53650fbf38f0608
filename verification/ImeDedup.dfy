/** The mobile-IME filter: drops re-sent commits and forwards only what a growing composition adds. */
module ImeFilter {
  import opened Text
  import opened ByteStrings

  const WINDOW_MS: nat := 200
  const ESC: Byte := 0x1B

  datatype State = State(buf: Bytes, lastAt: Option<nat>)

  const FRESH := State([], None)

  /** One inbound frame and the instant it is classified. */
  datatype Frame = Frame(bytes: Bytes, at: nat)

  predicate IsEscape(b: Bytes) {
    b != [] && b[0] == ESC
  }

  /** Space, Enter, the other C0 controls and DEL end a composition. */
  predicate IsBoundary(b: Byte) {
    b <= 0x20 || b == 0x7F
  }

  predicate Within(s: State, now: nat) {
    s.lastAt.Some? && s.lastAt.value <= now && now - s.lastAt.value < WINDOW_MS
  }

  function ClassifyStep(s: State, f: Frame): (State, Option<Bytes>) {
    if IsEscape(f.bytes) then (s, Some(f.bytes))
    else if |f.bytes| == 1 then
      (State(if IsBoundary(f.bytes[0]) then [] else s.buf + f.bytes, Some(f.at)), Some(f.bytes))
    else if Within(s, f.at) && s.buf != [] && s.buf == f.bytes then (s.(lastAt := Some(f.at)), None)
    else if Within(s, f.at) && s.buf != [] && IsPrefix(s.buf, f.bytes) then
      (State(f.bytes, Some(f.at)), Some(f.bytes[|s.buf|..]))
    else (State(f.bytes, Some(f.at)), Some(f.bytes))
  }

  /** The filter of one connection. */
  class ImeDedup {
    var buf: Bytes
    var lastAt: Option<nat>

    function Contents(): State
      reads this
    {
      State(buf, lastAt)
    }

    constructor ()
      ensures Contents() == FRESH
    {
      buf, lastAt := [], None;
    }

    method SetBaseline(bytes: Bytes, now: nat)
      modifies this
      ensures Contents() == State(bytes, Some(now))
    {
      buf, lastAt := bytes, Some(now);
    }

    method Classify(bytes: Bytes, now: nat) returns (out: Option<Bytes>)
      modifies this
      ensures (Contents(), out) == ClassifyStep(old(Contents()), Frame(bytes, now))
    {
      if IsEscape(bytes) { return Some(bytes); }
      var within := Within(Contents(), now);
      if |bytes| == 1 {
        if IsBoundary(bytes[0]) { buf := []; } else { buf := buf + bytes; }
        lastAt := Some(now);
        return Some(bytes);
      }
      if within && buf != [] {
        if buf == bytes {
          lastAt := Some(now);
          return None;
        }
        if IsPrefix(buf, bytes) {
          var suffix := bytes[|buf|..];
          SetBaseline(bytes, now);
          return Some(suffix);
        }
      }
      SetBaseline(bytes, now);
      out := Some(bytes);
    }
  }

  // ------------------------------------------------------------ runs

  function StateAfter(s: State, frames: seq<Frame>): State {
    if frames == [] then s else ClassifyStep(StateAfter(s, frames[..|frames| - 1]), frames[|frames| - 1]).0
  }

  function Emitted(s: State, f: Frame): Bytes {
    match ClassifyStep(s, f).1 case Some(b) => b case None => []
  }

  /** Every byte queued for the PTY by the run, escape frames aside. */
  function Injected(s: State, frames: seq<Frame>): Bytes {
    if frames == [] then []
    else
      var before, f := frames[..|frames| - 1], frames[|frames| - 1];
      Injected(s, before) + (if IsEscape(f.bytes) then [] else Emitted(StateAfter(s, before), f))
  }

  lemma Snoc(s: State, frames: seq<Frame>, f: Frame)
    ensures StateAfter(s, frames + [f]) == ClassifyStep(StateAfter(s, frames), f).0
    ensures Injected(s, frames + [f]) ==
            Injected(s, frames) + (if IsEscape(f.bytes) then [] else Emitted(StateAfter(s, frames), f))
  {
    assert (frames + [f])[..|frames|] == frames;
  }

  lemma StepKeepsSuffix(s: State, f: Frame, injected: Bytes)
    requires IsSuffix(s.buf, injected) && !IsEscape(f.bytes)
    ensures IsSuffix(ClassifyStep(s, f).0.buf, injected + Emitted(s, f))
    ensures IsSuffix(f.bytes, injected + Emitted(s, f))
  {
    SuffixGrows(s.buf, injected, Emitted(s, f));
    if |f.bytes| != 1 && ClassifyStep(s, f).1.Some? && Emitted(s, f) != f.bytes {
      assert f.bytes == s.buf + Emitted(s, f);
    }
  }

  /** The composition buffer is always the end of what was injected. */
  lemma {:induction false} BufferIsInjected(frames: seq<Frame>)
    ensures IsSuffix(StateAfter(FRESH, frames).buf, Injected(FRESH, frames))
  {
    if frames != [] {
      var before, f := frames[..|frames| - 1], frames[|frames| - 1];
      BufferIsInjected(before);
      if IsEscape(f.bytes) {
        assert Injected(FRESH, frames) == Injected(FRESH, before);
      } else {
        StepKeepsSuffix(StateAfter(FRESH, before), f, Injected(FRESH, before));
      }
    }
  }

  /** Nothing is lost: after every frame that is not an escape, the injected bytes end with that frame. */
  lemma FrameIsInjected(frames: seq<Frame>)
    requires frames != [] && !IsEscape(frames[|frames| - 1].bytes)
    ensures IsSuffix(frames[|frames| - 1].bytes, Injected(FRESH, frames))
  {
    var before, f := frames[..|frames| - 1], frames[|frames| - 1];
    BufferIsInjected(before);
    StepKeepsSuffix(StateAfter(FRESH, before), f, Injected(FRESH, before));
  }

  // ------------------------------------------------------------ escapes

  function NoEscapes(frames: seq<Frame>): seq<Frame> {
    if frames == [] then []
    else NoEscapes(frames[..|frames| - 1])
         + (if IsEscape(frames[|frames| - 1].bytes) then [] else [frames[|frames| - 1]])
  }

  /** Escape frames pass by the filter: wherever they fall, everything else comes out as without them. */
  lemma {:induction false} EscapesInvisible(s: State, frames: seq<Frame>)
    ensures Injected(s, frames) == Injected(s, NoEscapes(frames))
    ensures StateAfter(s, frames) == StateAfter(s, NoEscapes(frames))
  {
    if frames != [] {
      var before, f := frames[..|frames| - 1], frames[|frames| - 1];
      EscapesInvisible(s, before);
      if IsEscape(f.bytes) {
        assert NoEscapes(frames) == NoEscapes(before);
      } else {
        Snoc(s, NoEscapes(before), f);
      }
    }
  }

  // ------------------------------------------------------------ growing compositions

  /** `g` extends `f`, or sends it again; a single byte sent again is a second key. */
  predicate Follows(f: Frame, g: Frame) {
    IsPrefix(f.bytes, g.bytes) && (|f.bytes| < |g.bytes| || |f.bytes| > 1) && f.at <= g.at
  }

  /** The same, inside the window. */
  predicate Continues(f: Frame, g: Frame) {
    Follows(f, g) && g.at < f.at + WINDOW_MS
  }

  /** Each frame extends or repeats the one before it, however late. */
  ghost predicate Chain(frames: seq<Frame>) {
    && (forall i :: 0 <= i < |frames| ==> frames[i].bytes != [] && !IsEscape(frames[i].bytes))
    && (forall i :: 0 <= i < |frames| - 1 ==> Follows(frames[i], frames[i + 1]))
  }

  /** Each frame extends or repeats the one before it, inside the window. */
  ghost predicate Growing(frames: seq<Frame>) {
    && (forall i :: 0 <= i < |frames| ==> frames[i].bytes != [] && !IsEscape(frames[i].bytes))
    && (forall i :: 0 <= i < |frames| - 1 ==> Continues(frames[i], frames[i + 1]))
  }

  predicate OpensWithBoundary(frames: seq<Frame>)
    requires frames != []
  {
    |frames[0].bytes| == 1 && IsBoundary(frames[0].bytes[0])
  }

  lemma GrowingPrefix(frames: seq<Frame>)
    requires Growing(frames) && |frames| > 1
    ensures Growing(frames[..|frames| - 1])
  {
    var before := frames[..|frames| - 1];
    forall i | 0 <= i < |before| ensures frames[i] == before[i] {}
  }

  /** The frame is taken as more of the composition already there, or as that composition again. */
  predicate Taken(s: State, f: Frame) {
    |f.bytes| > 1 && Within(s, f.at) && s.buf != [] && IsPrefix(s.buf, f.bytes)
  }

  /** A frame that is taken adds exactly what is new, if anything, and becomes the composition. */
  lemma TakenAddsRest(s: State, f: Frame)
    requires Taken(s, f) && !IsEscape(f.bytes)
    ensures ClassifyStep(s, f).0 == State(f.bytes, Some(f.at)) && Emitted(s, f) == f.bytes[|s.buf|..]
  {
  }

  /** A first single key is kept in the composition, and the next frame is taken as more of it. */
  predicate Builds(s: State, frames: seq<Frame>)
    requires |frames| > 1
  {
    && |frames[0].bytes| == 1 && !IsBoundary(frames[0].bytes[0])
    && IsPrefix(s.buf + frames[0].bytes, frames[1].bytes)
  }

  /** What a growing chain injects, from any state. */
  function GrowingOutput(s: State, frames: seq<Frame>): Bytes
    requires frames != []
  {
    var first, last := frames[0].bytes, frames[|frames| - 1].bytes;
    if |first| != 1 then
      if Taken(s, frames[0]) && |s.buf| <= |last| then last[|s.buf|..] else last
    else if |frames| == 1 then first
    else if Builds(s, frames) && |s.buf| + 1 <= |last| then first + last[|s.buf| + 1..]
    else first + last
  }

  function GrowingState(s: State, frames: seq<Frame>): State
    requires frames != []
  {
    var last := frames[|frames| - 1];
    var buf :=
      if |frames| > 1 || |last.bytes| != 1 then last.bytes
      else if IsBoundary(last.bytes[0]) then [] else s.buf + last.bytes;
    State(buf, Some(last.at))
  }

  lemma ExtendedDrop(word: Bytes, longer: Bytes, n: nat)
    requires IsPrefix(word, longer) && n <= |word|
    ensures word[n..] + longer[|word|..] == longer[n..]
  {
    assert longer[n..] == longer[..|word|][n..] + longer[|word|..];
  }

  /** From the third frame on, or the second after a word, the composition is the frame before. */
  ghost predicate Extends(s: State, frames: seq<Frame>)
    requires |frames| > 1
  {
    var n := |frames| - 1;
    && |frames[n - 1].bytes| <= |frames[n].bytes|
    && GrowingOutput(s, frames[..n]) + frames[n].bytes[|frames[n - 1].bytes|..] == GrowingOutput(s, frames)
    && GrowingState(s, frames[..n]) == State(frames[n - 1].bytes, Some(frames[n - 1].at))
  }

  lemma BeforeLast(frames: seq<Frame>)
    requires |frames| > 1 && Growing(frames)
    ensures var n := |frames| - 1;
      && frames[..n][0] == frames[0] && frames[..n][n - 1] == frames[n - 1] && Growing(frames[..n])
      && Continues(frames[n - 1], frames[n]) && |frames[0].bytes| <= |frames[n - 1].bytes|
      && (n > 1 ==> |frames[n - 1].bytes| > 1)
  {
    GrowingPrefix(frames);
    GrowingLengths(frames, |frames| - 2);
  }

  lemma WordStep(s: State, frames: seq<Frame>)
    requires |frames| > 1 && Growing(frames) && |frames[0].bytes| > 1
    ensures Extends(s, frames)
  {
    var n := |frames| - 1;
    BeforeLast(frames);
    ExtendedDrop(frames[n - 1].bytes, frames[n].bytes, if Taken(s, frames[0]) then |s.buf| else 0);
  }

  lemma KeyStep(s: State, frames: seq<Frame>)
    requires |frames| > 2 && Growing(frames) && |frames[0].bytes| == 1
    ensures Extends(s, frames)
  {
    var n := |frames| - 1;
    BeforeLast(frames);
    SecondIsShort(frames);
    var k := if Builds(s, frames) then |s.buf| + 1 else 0;
    var first, word, longer := frames[0].bytes, frames[n - 1].bytes, frames[n].bytes;
    ExtendedDrop(word, longer, k);
    Assoc(first, word[k..], longer[|word|..]);
    assert frames[..n][1] == frames[1];
  }

  lemma SecondIsShort(frames: seq<Frame>)
    requires |frames| > 2 && Growing(frames)
    ensures var n := |frames| - 1; |frames[1].bytes| <= |frames[n - 1].bytes| <= |frames[n].bytes|
  {
    var n := |frames| - 1;
    forall k | 0 <= k < |frames[1..]| - 1 ensures Follows(frames[1..][k], frames[1..][k + 1]) {
      assert Continues(frames[k + 1], frames[k + 2]);
    }
    GrowingLengths(frames[1..], n - 2);
    assert Continues(frames[n - 1], frames[n]);
  }

  /** No frame of a growing chain is shorter than its first, and only the first can be a single byte. */
  lemma {:induction false} GrowingLengths(frames: seq<Frame>, i: nat)
    requires i < |frames|
    requires forall k :: 0 <= k < |frames| - 1 ==> Follows(frames[k], frames[k + 1])
    ensures |frames[0].bytes| <= |frames[i].bytes|
    ensures i > 0 && frames[0].bytes != [] ==> |frames[i].bytes| > 1
  {
    if i > 0 {
      GrowingLengths(frames, i - 1);
      assert Follows(frames[i - 1], frames[i]);
    }
  }

  /** What a run injects and leaves is what a growing chain should. */
  ghost predicate Grows(s: State, frames: seq<Frame>)
    requires frames != []
  {
    Injected(s, frames) == GrowingOutput(s, frames) && StateAfter(s, frames) == GrowingState(s, frames)
  }

  lemma LastGrows(s: State, before: seq<Frame>, f: Frame)
    requires before != [] && Growing(before + [f]) && Grows(s, before) && Extends(s, before + [f])
    requires Continues(before[|before| - 1], f) && before[|before| - 1].bytes != []
    ensures Grows(s, before + [f])
  {
    var frames := before + [f];
    assert frames[..|before|] == before && frames[|before| - 1] == before[|before| - 1];
    Snoc(s, before, f);
    TakenAddsRest(StateAfter(s, before), f);
  }

  lemma SecondGrows(s: State, k: Frame, f: Frame)
    requires Growing([k, f]) && |k.bytes| == 1
    ensures Grows(s, [k, f])
  {
    assert [k, f] == [k] + [f] && [k] == [] + [k];
    Snoc(s, [k], f);
    Snoc(s, [], k);
    assert Continues([k, f][0], [k, f][1]);
    SecondFrame(s, [k, f]);
  }

  lemma {:induction false} GrowingInjects(s: State, frames: seq<Frame>)
    requires frames != [] && Growing(frames)
    ensures Injected(s, frames) == GrowingOutput(s, frames)
    ensures StateAfter(s, frames) == GrowingState(s, frames)
  {
    var n := |frames| - 1;
    var before, f := frames[..n], frames[n];
    assert frames == before + [f];
    if n == 0 {
      Snoc(s, before, f);
      FirstFrame(s, f);
    } else if n == 1 && |frames[0].bytes| == 1 {
      assert frames == [frames[0], f];
      SecondGrows(s, frames[0], f);
    } else {
      BeforeLast(frames);
      if |frames[0].bytes| == 1 { KeyStep(s, frames); } else { WordStep(s, frames); }
      GrowingInjects(s, before);
      LastGrows(s, before, f);
    }
  }

  lemma FirstFrame(s: State, f: Frame)
    requires f.bytes != [] && !IsEscape(f.bytes)
    ensures [] + Emitted(s, f) == GrowingOutput(s, [f]) && ClassifyStep(s, f).0 == GrowingState(s, [f])
  {
    if Taken(s, f) && s.buf == f.bytes { assert f.bytes[|s.buf|..] == []; }
  }

  lemma SecondFrame(s: State, frames: seq<Frame>)
    requires |frames| == 2 && Growing(frames) && |frames[0].bytes| == 1 && Continues(frames[0], frames[1])
    ensures var st := ClassifyStep(s, frames[0]).0;
      && frames[0].bytes + Emitted(st, frames[1]) == GrowingOutput(s, frames)
      && ClassifyStep(st, frames[1]).0 == GrowingState(s, frames)
  {
    var st, f := ClassifyStep(s, frames[0]).0, frames[1];
    if Builds(s, frames) && st.buf == f.bytes { assert f.bytes[|s.buf| + 1..] == []; }
  }

  /** Where the chain last went on too late for the window; 0 if it never did. */
  function LastLate(frames: seq<Frame>): (k: nat)
    ensures k == 0 || k < |frames|
  {
    if |frames| < 2 then 0
    else if Continues(frames[|frames| - 2], frames[|frames| - 1]) then LastLate(frames[..|frames| - 1])
    else |frames| - 1
  }

  lemma ChainFront(frames: seq<Frame>)
    requires Chain(frames) && |frames| > 1
    ensures Chain(frames[..|frames| - 1])
  {
    var before := frames[..|frames| - 1];
    forall i | 0 <= i < |before| - 1 ensures Follows(before[i], before[i + 1]) {
      assert Follows(frames[i], frames[i + 1]);
    }
  }

  lemma GrowingSnoc(frames: seq<Frame>, f: Frame)
    requires Growing(frames) && frames != [] && Continues(frames[|frames| - 1], f)
    requires f.bytes != [] && !IsEscape(f.bytes)
    ensures Growing(frames + [f])
  {
  }

  lemma TailSnoc<T>(xs: seq<T>, k: nat)
    requires k + 1 < |xs|
    ensures xs[k..] == xs[..|xs| - 1][k..] + [xs[|xs| - 1]]
    ensures xs[..|xs| - 1][k..] != [] && xs[..|xs| - 1][k..][|xs| - k - 2] == xs[|xs| - 2]
  {
  }

  lemma {:induction false} LateParts(frames: seq<Frame>)
    requires Chain(frames) && frames != []
    ensures var k := LastLate(frames); Growing(frames[k..]) && (k > 0 ==> !Continues(frames[k - 1], frames[k]))
  {
    var n := |frames| - 1;
    if n > 0 && Continues(frames[n - 1], frames[n]) {
      var before := frames[..n];
      ChainFront(frames);
      LateParts(before);
      var k := LastLate(before);
      GrowingTail(frames, k);
      assert k > 0 ==> before[k - 1] == frames[k - 1] && before[k] == frames[k];
    } else {
      LoneTail(frames);
    }
  }

  lemma GrowingTail(frames: seq<Frame>, k: nat)
    requires k + 1 < |frames| && Growing(frames[..|frames| - 1][k..])
    requires Continues(frames[|frames| - 2], frames[|frames| - 1])
    requires frames[|frames| - 1].bytes != [] && !IsEscape(frames[|frames| - 1].bytes)
    ensures Growing(frames[k..])
  {
    TailSnoc(frames, k);
    GrowingSnoc(frames[..|frames| - 1][k..], frames[|frames| - 1]);
  }

  lemma LoneTail(frames: seq<Frame>)
    requires Chain(frames) && frames != []
    ensures Growing(frames[|frames| - 1..])
  {
    var n := |frames| - 1;
    assert frames[n..] == [frames[n]];
    assert frames[n].bytes != [] && !IsEscape(frames[n].bytes);
  }

  /** A run in two parts. */
  lemma {:induction false} RunAppend(s: State, a: seq<Frame>, b: seq<Frame>)
    ensures StateAfter(s, a + b) == StateAfter(StateAfter(s, a), b)
    ensures Injected(s, a + b) == Injected(s, a) + Injected(StateAfter(s, a), b)
  {
    if b == [] {
      assert a + b == a && Injected(s, a) + [] == Injected(s, a);
    } else {
      var front, f := b[..|b| - 1], b[|b| - 1];
      assert a + b == (a + front) + [f] && b == front + [f];
      RunAppend(s, a, front);
      Snoc(s, a + front, f);
      Snoc(StateAfter(s, a), front, f);
      var out := if IsEscape(f.bytes) then [] else Emitted(StateAfter(s, a + front), f);
      Assoc(Injected(s, a), Injected(StateAfter(s, a), front), out);
    }
  }

  /** Every frame that is not an escape restarts the window. */
  lemma LastSeen(s: State, frames: seq<Frame>)
    requires frames != [] && !IsEscape(frames[|frames| - 1].bytes)
    ensures StateAfter(s, frames).lastAt == Some(frames[|frames| - 1].at)
  {
  }

  /** A frame too late for the window comes whole, and all after it adds up to the word again. */
  lemma LateRest(s: State, words: seq<Frame>, a: seq<Frame>, b: seq<Frame>)
    requires words == a + b && a != [] && !IsEscape(a[|a| - 1].bytes) && b != [] && Growing(b) && |b[0].bytes| > 1
    requires b[0].at >= a[|a| - 1].at + WINDOW_MS
    ensures Injected(s, words) == Injected(s, a) + b[|b| - 1].bytes
  {
    LastSeen(s, a);
    RunAppend(s, a, b);
    GrowingInjects(StateAfter(s, a), b);
  }

  lemma LateGap(words: seq<Frame>, k: nat)
    requires Chain(words) && 0 < k < |words| && !Continues(words[k - 1], words[k])
    ensures !IsEscape(words[k - 1].bytes) && |words[k].bytes| > 1 && words[k].at >= words[k - 1].at + WINDOW_MS
  {
    assert Follows(words[k - 1], words[k]);
    GrowingLengths(words, k);
  }

  /** The part before the last late frame, and the rest. */
  lemma LateSplit(words: seq<Frame>, k: nat) returns (a: seq<Frame>, b: seq<Frame>)
    requires Chain(words) && 0 < k < |words| && Growing(words[k..]) && !Continues(words[k - 1], words[k])
    ensures a == words[..k] && words == a + b && b != [] && b[|b| - 1] == words[|words| - 1]
    ensures a != [] && !IsEscape(a[|a| - 1].bytes)
    ensures Growing(b) && |b[0].bytes| > 1 && b[0].at >= a[|a| - 1].at + WINDOW_MS
  {
    LateGap(words, k);
    a, b := words[..k], words[k..];
  }

  /**
    A chain of prefixes, with any repeats and any gaps. If it went on too late somewhere, its word comes whole after
    all that was injected before that. If not, the word is injected exactly once if and only if the chain opens with
    several bytes that are not taken as more of an older composition, or is a single key, or opens with a key that
    is no boundary on an empty composition.
    */
  lemma GrowingWordOnce(s: State, frames: seq<Frame>)
    requires NoEscapes(frames) != [] && Chain(NoEscapes(frames))
    ensures var words := NoEscapes(frames);
            var word, late := words[|words| - 1].bytes, LastLate(words);
            && (late > 0 ==> Injected(s, frames) == Injected(s, words[..late]) + word)
            && (Injected(s, frames) == word <==>
                if late > 0 then Injected(s, words[..late]) == []
                else if |words[0].bytes| > 1 then !Taken(s, words[0])
                else |words| == 1 || (s.buf == [] && !OpensWithBoundary(words)))
  {
    EscapesInvisible(s, frames);
    var words := NoEscapes(frames);
    LateParts(words);
    var late := LastLate(words);
    if late > 0 {
      var a, b := LateSplit(words, late);
      LateRest(s, words, a, b);
      if Injected(s, words[..late]) == [] {
        assert [] + words[|words| - 1].bytes == words[|words| - 1].bytes;
      }
    } else {
      assert words[0..] == words;
      GrowingInjects(s, words);
      GrowingLengths(words, |words| - 1);
      OutputIsWordIff(s, words);
    }
  }

  lemma OutputIsWordIff(s: State, words: seq<Frame>)
    requires words != [] && Growing(words) && |words[0].bytes| <= |words[|words| - 1].bytes|
    ensures GrowingOutput(s, words) == words[|words| - 1].bytes <==>
            if |words[0].bytes| > 1 then !Taken(s, words[0])
            else |words| == 1 || (s.buf == [] && !OpensWithBoundary(words))
  {
    var n := |words| - 1;
    var first, last := words[0].bytes, words[n].bytes;
    if |first| == 1 && n > 0 {
      assert Continues(words[0], words[1]);
      forall k | 0 <= k < n - 1 ensures Follows(words[1..][k], words[1..][k + 1]) {
        assert Continues(words[k + 1], words[k + 2]);
      }
      GrowingLengths(words[1..], n - 1);
      StartsWithFirst(words, n);
      if s.buf == [] {
        assert s.buf + first == first;
        assert last == last[..1] + last[1..];
      }
    }
  }

  /** Every frame of a growing chain starts with its first. */
  lemma {:induction false} StartsWithFirst(frames: seq<Frame>, i: nat)
    requires i < |frames|
    requires forall k :: 0 <= k < |frames| - 1 ==> Follows(frames[k], frames[k + 1])
    ensures IsPrefix(frames[0].bytes, frames[i].bytes)
  {
    if i > 0 {
      StartsWithFirst(frames, i - 1);
      assert Follows(frames[i - 1], frames[i]);
      assert frames[i].bytes[..|frames[0].bytes|] == frames[i - 1].bytes[..|frames[0].bytes|];
    }
  }

  // ------------------------------------------------------------ typed words and their commits

  /** What came before stands against a commit as the composition does: a commit is exact only on the whole of it. */
  lemma CommitOnceIff(s: State, frames: seq<Frame>, commit: Frame)
    requires |commit.bytes| > 1 && !IsEscape(commit.bytes)
    ensures var st, before := StateAfter(s, frames), Injected(s, frames);
      Injected(s, frames + [commit]) == commit.bytes <==> if Taken(st, commit) then before == st.buf else before == []
  {
    Snoc(s, frames, commit);
    var st, before := StateAfter(s, frames), Injected(s, frames);
    CommitEmits(st, commit);
    if Taken(st, commit) {
      SameTail(before, st.buf, commit.bytes[|st.buf|..]);
    } else {
      SameTail(before, [], commit.bytes);
    }
  }

  lemma CommitEmits(st: State, commit: Frame)
    requires |commit.bytes| > 1 && !IsEscape(commit.bytes)
    ensures Taken(st, commit) ==>
      Emitted(st, commit) == commit.bytes[|st.buf|..] && commit.bytes == st.buf + commit.bytes[|st.buf|..]
    ensures !Taken(st, commit) ==> Emitted(st, commit) == commit.bytes == [] + commit.bytes
  {
  }

  lemma SameTail(a: Bytes, b: Bytes, tail: Bytes)
    ensures a + tail == b + tail <==> a == b
  {
    if a + tail == b + tail {
      assert a == (a + tail)[..|a|];
      assert b == (b + tail)[..|b|];
    }
  }

  /** One key: a character of one byte or several, no boundary and no escape. */
  predicate IsKey(f: Frame) {
    f.bytes != [] && !IsEscape(f.bytes) && !(|f.bytes| == 1 && IsBoundary(f.bytes[0]))
  }

  /** One key per frame, none of them taken as more of the composition. */
  ghost predicate Typed(s: State, frames: seq<Frame>) {
    forall i :: 0 <= i < |frames| ==> IsKey(frames[i]) && !Taken(StateAfter(s, frames[..i]), frames[i])
  }

  lemma TypedFront(s: State, frames: seq<Frame>)
    requires Typed(s, frames) && frames != []
    ensures Typed(s, frames[..|frames| - 1])
  {
    var before := frames[..|frames| - 1];
    forall i | 0 <= i < |before| ensures IsKey(before[i]) && !Taken(StateAfter(s, before[..i]), before[i]) {
      assert before[..i] == frames[..i] && before[i] == frames[i];
    }
  }

  function Word(frames: seq<Frame>): Bytes {
    if frames == [] then [] else Word(frames[..|frames| - 1]) + frames[|frames| - 1].bytes
  }

  /** The composition the keys leave: a key of several bytes starts it over. */
  function Composed(buf: Bytes, frames: seq<Frame>): Bytes {
    if frames == [] then buf
    else
      var last := frames[|frames| - 1].bytes;
      if |last| > 1 then last else Composed(buf, frames[..|frames| - 1]) + last
  }

  lemma {:induction false} TypedInjects(s: State, frames: seq<Frame>)
    requires Typed(s, frames)
    ensures Injected(s, frames) == Word(frames) && StateAfter(s, frames).buf == Composed(s.buf, frames)
    ensures frames != [] ==> StateAfter(s, frames).lastAt == Some(frames[|frames| - 1].at)
    ensures |Word(frames)| >= |frames|
  {
    if frames != [] {
      var n := |frames| - 1;
      TypedFront(s, frames);
      TypedInjects(s, frames[..n]);
      assert IsKey(frames[n]) && !Taken(StateAfter(s, frames[..n]), frames[n]);
    }
  }

  /** Only the first key has several bytes, and if it has one, it opened a composition. */
  ghost predicate OneComposition(buf: Bytes, frames: seq<Frame>)
    requires frames != []
  {
    (forall i :: 0 < i < |frames| ==> |frames[i].bytes| == 1) && (|frames[0].bytes| > 1 || buf == [])
  }

  lemma {:induction false} ComposedIsWordIff(buf: Bytes, frames: seq<Frame>)
    requires frames != [] && forall i :: 0 <= i < |frames| ==> frames[i].bytes != []
    ensures Composed(buf, frames) == Word(frames) <==> OneComposition(buf, frames)
  {
    var n := |frames| - 1;
    var before, last := frames[..n], frames[n].bytes;
    if n == 0 {
      assert before == [];
      if |last| == 1 && buf != [] { assert |buf + last| > |last|; }
      assert [] + last == last;
    } else {
      ComposedIsWordIff(buf, before);
      WordIsLong(before);
      assert before[0] == frames[0] && forall i :: 0 < i < n ==> before[i] == frames[i];
      if |last| == 1 && Composed(buf, before) + last == Word(before) + last {
        assert Composed(buf, before) == (Composed(buf, before) + last)[..|Composed(buf, before)|];
        assert Word(before) == (Word(before) + last)[..|Word(before)|];
      }
    }
  }

  lemma {:induction false} WordIsLong(frames: seq<Frame>)
    requires forall i :: 0 <= i < |frames| ==> frames[i].bytes != []
    ensures |Word(frames)| >= |frames|
  {
    if frames != [] { WordIsLong(frames[..|frames| - 1]); }
  }

  /**
    Characters typed one by one, of any length and from any state, and then committed as a whole word: the word is
    injected exactly once if and only if the keys make one composition (only the first may have several bytes, and
    a first single byte needs an empty buffer) and the commit falls inside the window after the last of them.
    */
  lemma TypedWordOnce(s: State, frames: seq<Frame>, commit: Frame)
    requires frames != [] && Typed(s, frames) && commit.bytes == Word(frames) && |commit.bytes| > 1
    requires frames[|frames| - 1].at <= commit.at && !IsEscape(commit.bytes)
    ensures Injected(s, frames + [commit]) == Word(frames) <==>
            OneComposition(s.buf, frames) && commit.at < frames[|frames| - 1].at + WINDOW_MS
    ensures !Taken(StateAfter(s, frames), commit) ==> Injected(s, frames + [commit]) == Word(frames) + Word(frames)
  {
    var st := StateAfter(s, frames);
    TypedInjects(s, frames);
    CommitOnceIff(s, frames, commit);
    ComposedIsWordIff(s.buf, frames);
    CommitTaken(st, commit, frames[|frames| - 1].at);
    if !Taken(st, commit) {
      Snoc(s, frames, commit);
      CommitEmits(st, commit);
    }
  }

  /** A commit of exactly the composition is taken if and only if it comes in time. */
  lemma CommitTaken(st: State, commit: Frame, last: nat)
    requires st.lastAt == Some(last) && last <= commit.at && |commit.bytes| > 1
    ensures st.buf == commit.bytes ==> (Taken(st, commit) <==> commit.at < last + WINDOW_MS)
    ensures Taken(st, commit) ==> commit.at < last + WINDOW_MS
  {
  }

  /** With keys of one byte each, a word that is not injected once is injected twice. */
  lemma PlainWordOnceOrTwice(s: State, frames: seq<Frame>, commit: Frame)
    requires |frames| > 1 && Typed(s, frames) && commit.bytes == Word(frames)
    requires frames[|frames| - 1].at <= commit.at && !IsEscape(commit.bytes)
    requires forall i :: 0 <= i < |frames| ==> |frames[i].bytes| == 1
    ensures var once := s.buf == [] && commit.at < frames[|frames| - 1].at + WINDOW_MS;
            Injected(s, frames + [commit]) == if once then Word(frames) else Word(frames) + Word(frames)
  {
    TypedInjects(s, frames);
    TypedWordOnce(s, frames, commit);
    PlainComposed(s.buf, frames);
    if s.buf != [] { assert |StateAfter(s, frames).buf| > |commit.bytes|; }
  }

  lemma {:induction false} PlainComposed(buf: Bytes, frames: seq<Frame>)
    requires forall i :: 0 <= i < |frames| ==> |frames[i].bytes| == 1
    ensures Composed(buf, frames) == buf + Word(frames)
  {
    if frames == [] {
      assert buf + [] == buf;
    } else {
      var before := frames[..|frames| - 1];
      PlainComposed(buf, before);
      Assoc(buf, Word(before), frames[|frames| - 1].bytes);
    }
  }

  lemma PlainKey(s: State, frames: seq<Frame>, b: Byte, at: nat)
    requires !IsBoundary(b)
    ensures StateAfter(s, frames + [Frame([b], at)]) == State(StateAfter(s, frames).buf + [b], Some(at))
    ensures Injected(s, frames + [Frame([b], at)]) == Injected(s, frames) + [b]
  {
    Snoc(s, frames, Frame([b], at));
  }

  /** A frame of several bytes that is not taken is injected whole and becomes the composition. */
  lemma WholeFrame(s: State, frames: seq<Frame>, f: Frame)
    requires |f.bytes| > 1 && !IsEscape(f.bytes) && !Taken(StateAfter(s, frames), f)
    ensures StateAfter(s, frames + [f]) == State(f.bytes, Some(f.at))
    ensures Injected(s, frames + [f]) == Injected(s, frames) + f.bytes
  {
    Snoc(s, frames, f);
  }

  /**
    An accented last letter starts the composition over: "p", "a", "é" and then the commit "paé", all at once on a
    fresh filter, inject the word twice.
    */
  lemma AccentComesTwice()
    ensures var keys := [Frame([0x70], 0)] + [Frame([0x61], 0)] + [Frame([0xC3, 0xA9], 0)];
            var commit := Frame([0x70, 0x61, 0xC3, 0xA9], 0);
            Injected(FRESH, keys + [commit]) == commit.bytes + commit.bytes
  {
    var p, pa := [Frame([0x70], 0)], [Frame([0x70], 0)] + [Frame([0x61], 0)];
    var e, commit := Frame([0xC3, 0xA9], 0), Frame([0x70, 0x61, 0xC3, 0xA9], 0);
    assert p == [] + p;
    PlainKey(FRESH, [], 0x70, 0);
    PlainKey(FRESH, p, 0x61, 0);
    assert StateAfter(FRESH, pa).buf == [0x70, 0x61];
    WholeFrame(FRESH, pa, e);
    WholeFrame(FRESH, pa + [e], commit);
  }

  // ------------------------------------------------------------ which bytes end a composition

  /** What one byte other than an escape does: up to the space, or DEL, it ends the composition; others extend it. */
  lemma OneByte(s: State, b: Byte, at: nat)
    requires b != 0x1B
    ensures Injected(s, [Frame([b], at)]) == [b]
    ensures StateAfter(s, [Frame([b], at)]) == State(if b <= 0x20 || b == 0x7F then [] else s.buf + [b], Some(at))
  {
    assert [] + [Frame([b], at)] == [Frame([b], at)];
    Snoc(s, [], Frame([b], at));
  }

  /** A sequence that starts with an escape byte is passed on and leaves the composition and its window alone. */
  lemma EscapePasses(s: State, rest: Bytes, at: nat)
    ensures ClassifyStep(s, Frame([0x1B] + rest, at)) == (s, Some([0x1B] + rest))
  {
  }

  /** One key a byte, each above the space and none of them DEL, spelling `word`. */
  ghost predicate Spells(keys: seq<Frame>, word: Bytes) {
    |keys| == |word| && forall i :: 0 <= i < |keys| ==> keys[i].bytes == [word[i]] && word[i] > 0x20 && word[i] != 0x7F
  }

  lemma {:induction false} SpelledIsWord(keys: seq<Frame>, word: Bytes)
    requires Spells(keys, word)
    ensures Word(keys) == word
  {
    if keys != [] {
      var n := |keys| - 1;
      assert Spells(keys[..n], word[..n]) && keys[n].bytes == [word[n]];
      SpelledIsWord(keys[..n], word[..n]);
      assert word[..n] + [word[n]] == word;
    }
  }

  lemma SpelledIsTyped(s: State, keys: seq<Frame>, word: Bytes)
    requires Spells(keys, word)
    ensures Typed(s, keys)
  {
    forall i | 0 <= i < |keys| ensures IsKey(keys[i]) && !Taken(StateAfter(s, keys[..i]), keys[i]) {
      assert keys[i].bytes == [word[i]];
    }
  }

  /**
    A boundary, a word, its commit: from any state a space, Enter, another control byte or DEL, then the letters of a
    word one by one and the word as a whole within 200 ms of the last of them, inject the boundary and the word once.
    */
  lemma WordAfterBoundary(s: State, b: Byte, at: nat, keys: seq<Frame>, commit: Frame)
    requires b != 0x1B && (b <= 0x20 || b == 0x7F)
    requires |keys| > 1 && Spells(keys, commit.bytes)
    requires keys[|keys| - 1].at <= commit.at < keys[|keys| - 1].at + 200
    ensures Injected(s, [Frame([b], at)] + (keys + [commit])) == [b] + commit.bytes
  {
    var first := [Frame([b], at)];
    var ready := StateAfter(s, first);
    OneByte(s, b, at);
    SpelledIsWord(keys, commit.bytes);
    SpelledIsTyped(ready, keys, commit.bytes);
    PlainWordOnceOrTwice(ready, keys, commit);
    RunAppend(s, first, keys + [commit]);
  }

  /** After any other byte the composition goes on: a commit of all of it, within 200 ms, adds nothing. */
  lemma CommitAfterLetter(s: State, b: Byte, at: nat, commitAt: nat)
    requires b > 0x20 && b != 0x7F && s.buf != [] && s.buf[0] != 0x1B && at <= commitAt < at + 200
    ensures Injected(s, [Frame([b], at)] + [Frame(s.buf + [b], commitAt)]) == [b]
  {
    OneByte(s, b, at);
    Snoc(s, [Frame([b], at)], Frame(s.buf + [b], commitAt));
    assert [b] + [] == [b];
  }
}
