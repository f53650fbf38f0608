/** What a viewer's terminal shows, and when: at once, held back while selecting, or a preview until output comes. */
module StreamDisplay {
  import opened Text
  import opened ByteStrings
  import opened PtyRings
  import opened LiveStream
  import opened ExactlyOnce

  /** A task that carries output: written as it is, or inflated first. */
  predicate IsOutput(z: Gzip, t: Task) {
    t.Write? || (t.Inflate? && z.unpack(t.bytes).Some?)
  }

  // ------------------------------------------------------------ shown at once

  lemma NothingQueued(z: Gzip, c: Client, a: Action)
    requires !c.paused && (a == Flush || (a == Run && c.chain != [] && IsOutput(z, c.chain[0])))
    ensures (if a == Flush then FlushPending(c) else RunTask(z, c)).pending == []
  {
  }

  lemma AllShown(z: Gzip, history: Bytes, v: Viewer)
    requires ViewerOk(z, history, v) && v.client.pending == []
    ensures v.client.ringOffset <= |history| && TermBytes(v.client.term) == history[..v.client.ringOffset]
  {
    ViewerShowsHistory(z, history, v);
    assert TermBytes(v.client.term) + [] == TermBytes(v.client.term);
  }

  /**
    While nothing is selected, applying output, or flushing what was held back, leaves nothing queued: the terminal
    itself then shows the history up to `ringOffset`.
    */
  lemma OutputIsShown(z: Gzip, s: System, events: seq<Event>, t: System, i: nat, a: Action)
    requires z.Faithful() && Initial(s) && Reaches(z, s, events, t) && Enabled(t, Act(i, a))
    requires var c := t.viewers[i].client;
      !c.paused && (a == Action.Flush || (a == Run && IsOutput(z, c.chain[0])))
    ensures var u := Step(z, t, Act(i, a));
      var c := u.viewers[i].client;
      && c.pending == []
      && (u.viewers[i].sound ==>
            c.ringOffset <= |u.ring.history| && TermBytes(c.term) == u.ring.history[..c.ringOffset])
  {
    InitialInv(z, s);
    ReachableInv(z, s, events, t);
    StepOk(z, t, Act(i, a));
    NothingQueued(z, t.viewers[i].client, a);
    var u := Step(z, t, Act(i, a));
    if u.viewers[i].sound { AllShown(z, u.ring.history, u.viewers[i]); }
  }

  // ------------------------------------------------------------ held back while selecting

  /** `d` shows the output `c` shows, and queues no less. */
  ghost predicate Held(c: Client, d: Client) {
    d.paused && TermBytes(d.term) == TermBytes(c.term) && IsPrefix(c.pending, d.pending)
  }

  /** A pending preview stands on a terminal without output. */
  lemma PreviewHidesNothing(c: Client)
    requires ClientOk(c) && c.previewReset
    ensures TermBytes(c.term) == [] && c.pending == []
  {
    assert |TermBytes(c.term) + c.pending| == 0;
  }

  lemma RunHolds(z: Gzip, c: Client)
    requires ClientOk(c) && c.paused && c.chain != []
    ensures Held(c, RunTask(z, c))
  {
    if c.previewReset { PreviewHidesNothing(c); }
    match c.chain[0]
    case Paint(text) => TermPreviews(c.term, text);
    case _ =>
  }

  lemma ActHolds(z: Gzip, r: Ring, v: Viewer, a: Action)
    requires r.base <= |r.history| && Ready(r, v, a) && ClientOk(v.client) && v.client.paused && a != Resume
    ensures Held(v.client, ActStep(z, r, v, a).1.client)
  {
    if a == Run { RunHolds(z, v.client); }
  }

  lemma StepHolds(z: Gzip, s: System, e: Event, i: nat)
    requires z.Faithful() && Inv(z, s) && Enabled(s, e) && i < |s.viewers| && e != Act(i, Resume)
    requires s.viewers[i].sound && s.viewers[i].client.paused
    ensures i < |Step(z, s, e).viewers| && Held(s.viewers[i].client, Step(z, s, e).viewers[i].client)
  {
    if e.Act? && e.viewer == i { ActHolds(z, s.ring, s.viewers[i], e.action); }
  }

  lemma {:induction false} SoundBefore(z: Gzip, s: System, events: seq<Event>, t: System, i: nat)
    requires Reaches(z, s, events, t) && i < |t.viewers| && t.viewers[i].sound
    ensures i < |s.viewers| && s.viewers[i].sound
    decreases |events|
  {
    if events != [] {
      SoundBefore(z, Step(z, s, events[0]), events[1..], t, i);
      var e := events[0];
      if e.Act? && e.viewer == i { SoundnessIsLost(z, s.ring, s.viewers[i], e.action); }
    }
  }

  lemma {:induction false} RunsHeld(z: Gzip, s: System, events: seq<Event>, t: System, i: nat)
    requires z.Faithful() && Inv(z, s) && Reaches(z, s, events, t) && i < |t.viewers| && t.viewers[i].sound
    requires i < |s.viewers| && s.viewers[i].client.paused && Act(i, Resume) !in events
    ensures Held(s.viewers[i].client, t.viewers[i].client)
    decreases |events|
  {
    if events != [] {
      var e, next := events[0], Step(z, s, events[0]);
      SoundBefore(z, s, events, t, i);
      StepHolds(z, s, e, i);
      StepOk(z, s, e);
      RunsHeld(z, next, events[1..], t, i);
      HeldTransitive(s.viewers[i].client, next.viewers[i].client, t.viewers[i].client);
    }
  }

  lemma HeldTransitive(a: Client, b: Client, c: Client)
    requires Held(a, b) && Held(b, c)
    ensures Held(a, c)
  {
    assert c.pending[..|a.pending|] == c.pending[..|b.pending|][..|a.pending|];
  }

  lemma QueueIsRest(history: Bytes, shown: Bytes, queue: Bytes, n: nat)
    requires n <= |history| && shown + queue == history[..n]
    ensures |shown| <= n && queue == history[|shown|..n]
  {
    assert |shown + queue| == n;
    assert queue == (shown + queue)[|shown|..];
  }

  /**
    From the moment the user selects until the selection ends, whatever arrives, nothing new is painted: the output on
    the terminal stays as it was, and what came since is queued in order.
    */
  lemma PausedIsHeld(z: Gzip, s: System, before: seq<Event>, t: System, i: nat, during: seq<Event>, u: System)
    requires z.Faithful() && Initial(s) && Reaches(z, s, before, t) && Enabled(t, Act(i, Pause))
    requires Reaches(z, Step(z, t, Act(i, Pause)), during, u) && Act(i, Resume) !in during
    requires i < |u.viewers| && u.viewers[i].sound
    ensures var shown, c := TermBytes(t.viewers[i].client.term), u.viewers[i].client;
      && TermBytes(c.term) == shown && |shown| <= c.ringOffset <= |u.ring.history|
      && c.pending == u.ring.history[|shown|..c.ringOffset]
  {
    InitialInv(z, s);
    ReachableInv(z, s, before, t);
    var paused := Step(z, t, Act(i, Pause));
    StepOk(z, t, Act(i, Pause));
    RunsHeld(z, paused, during, u, i);
    ReachableInv(z, paused, during, u);
    var c := u.viewers[i].client;
    ViewerShowsHistory(z, u.ring.history, u.viewers[i]);
    QueueIsRest(u.ring.history, TermBytes(c.term), c.pending, c.ringOffset);
  }

  /** When the selection ends, the next flush paints all that was held back. */
  lemma ResumeShowsAll(z: Gzip, s: System, events: seq<Event>, t: System, i: nat)
    requires z.Faithful() && Initial(s) && Reaches(z, s, events, t) && Enabled(t, Act(i, Resume))
    requires t.viewers[i].sound
    ensures var c := Step(z, Step(z, t, Act(i, Resume)), Act(i, Action.Flush)).viewers[i].client;
      && c.pending == [] && c.ringOffset == t.viewers[i].client.ringOffset <= |t.ring.history|
      && TermBytes(c.term) == t.ring.history[..c.ringOffset]
  {
    InitialInv(z, s);
    ReachableInv(z, s, events, t);
    var open := Step(z, t, Act(i, Resume));
    StepOk(z, t, Act(i, Resume));
    StepOk(z, open, Act(i, Action.Flush));
    var done := Step(z, open, Act(i, Action.Flush));
    NothingQueued(z, open.viewers[i].client, Action.Flush);
    AllShown(z, done.ring.history, done.viewers[i]);
  }

  /** A connection can end at any moment, and the page may then connect again, from its own offset. */
  lemma DroppedAnyTime(z: Gzip, r: Ring, v: Viewer)
    requires r.base <= |r.history| && v.conn.Some?
    ensures Ready(r, v, Drop)
    ensures var w := ActStep(z, r, v, Drop).1;
      && w.client == v.client && Ready(r, w, Reconnect)
      && var k := ActStep(z, r, w, Reconnect).1.conn.value;
         k.since == k.offset == v.client.ringOffset && k.net == []
  {
  }

  // ------------------------------------------------------------ previews

  /** A preview is painted behind what is there and counts for nothing; the next output replaces the whole terminal. */
  lemma PreviewUntilOutput(z: Gzip, c: Client, text: Bytes, b: Bytes)
    requires c.chain == [Paint(text), Write(b)] && !c.paused && c.pending == []
    ensures var p := RunTask(z, c);
      && p.ringOffset == c.ringOffset && |p.term| == |c.term| + |text| && p.term[..|c.term|] == c.term
      && (forall k :: 0 <= k < |text| ==> p.term[|c.term| + k] == Preview(text[k]))
      && var d := RunTask(z, p);
         d.ringOffset == c.ringOffset + |b| && |d.term| == |b| && forall k :: 0 <= k < |b| ==> d.term[k] == Output(b[k])
  {
    var p := RunTask(z, c);
    assert p.chain == [Write(b)];
    assert Outputs([]) == [] && [] + [] + Outputs(b) == Outputs(b);
  }

  /** A preview is offered to a connection from the start, not yet served, over 64 KiB or more of retained output. */
  lemma PreviewOfferedIff(r: Ring, v: Viewer, text: Bytes)
    requires r.base <= |r.history| && v.conn.Some?
    ensures Ready(r, v, SendPreview(text)) <==>
              v.conn.value.since == 0 && !v.conn.value.greeted && |r.history| - r.base >= 65_536
  {
    assert |Tail(r.history, r.base, 0)| == if |r.history| == 0 then 0 else |r.history| - r.base;
  }

  ghost predicate HasTag(frame: Bytes, tag: Byte) {
    frame != [] && frame[0] == tag
  }

  /** A preview goes to a connection from the start, and before it nothing but meta frames. */
  ghost predicate PreviewsLead(k: Conn) {
    forall i :: 0 <= i < |k.sent| && HasTag(k.sent[i], 0x0C) ==>
      k.since == 0 && forall j :: 0 <= j < i ==> HasTag(k.sent[j], 0x03)
  }

  ghost predicate OnlyMeta(k: Conn) {
    k.stage.Idle? && forall i :: 0 <= i < |k.sent| ==> HasTag(k.sent[i], 0x03)
  }

  ghost predicate Greets(v: Viewer) {
    v.conn.Some? ==> PreviewsLead(v.conn.value) && (!v.conn.value.greeted ==> OnlyMeta(v.conn.value))
  }

  lemma ActGreets(z: Gzip, r: Ring, v: Viewer, a: Action)
    requires r.base <= |r.history| && Ready(r, v, a) && StageOk(r, v) && Greets(v)
    ensures Greets(ActStep(z, r, v, a).1)
  {
    if v.conn.Some? && a.Send? { assert !HasTag(v.conn.value.stage.frame, 0x0C); }
  }

  lemma {:induction false} RunsGreet(z: Gzip, s: System, events: seq<Event>, t: System)
    requires z.Faithful() && Inv(z, s) && Reaches(z, s, events, t)
    requires forall i :: 0 <= i < |s.viewers| ==> Greets(s.viewers[i])
    ensures forall i :: 0 <= i < |t.viewers| ==> Greets(t.viewers[i])
    decreases |events|
  {
    if events != [] {
      var e, next := events[0], Step(z, s, events[0]);
      if e.Act? { ActGreets(z, s.ring, s.viewers[e.viewer], e.action); }
      StepOk(z, s, e);
      RunsGreet(z, next, events[1..], t);
    }
  }

  /** In every run a connection sends at most one preview, only when it starts from nothing, and before any output. */
  lemma OnePreviewFirst(z: Gzip, s: System, events: seq<Event>, t: System, i: nat, a: nat)
    requires z.Faithful() && Initial(s) && Reaches(z, s, events, t) && i < |t.viewers| && t.viewers[i].conn.Some?
    requires a < |t.viewers[i].conn.value.sent| && HasTag(t.viewers[i].conn.value.sent[a], 0x0C)
    ensures var k := t.viewers[i].conn.value;
      && k.since == 0 && (forall j :: 0 <= j < a ==> HasTag(k.sent[j], 0x03))
      && forall b :: 0 <= b < |k.sent| && b != a ==> !HasTag(k.sent[b], 0x0C)
  {
    InitialInv(z, s);
    RunsGreet(z, s, events, t);
    var k := t.viewers[i].conn.value;
    assert PreviewsLead(k);
    forall b | 0 <= b < |k.sent| && HasTag(k.sent[b], 0x0C) ensures b == a {
      assert b > a ==> HasTag(k.sent[a], 0x03);
    }
  }

  // ------------------------------------------------------------ frames

  /** A chunk goes compressed exactly when it has 256 bytes or more and compressing makes it shorter. */
  lemma FrameIsTheShorter(z: Gzip, chunk: Bytes)
    ensures var f := EncodeOut(z, chunk);
      && 1 <= |f| <= |chunk| + 1
      && (|f| <= |chunk| <==> |chunk| >= 256 && z.pack(chunk).Some? && |z.pack(chunk).value| < |chunk|)
      && (|f| <= |chunk| ==> f[0] == 0x0A && f[1..] == z.pack(chunk).value)
      && (|f| == |chunk| + 1 ==> f[0] == 0x02 && f[1..] == chunk)
  {
  }

  /** One viewer flushes and publishes, and the next at the same offset is given the very same frame, up to 512 KiB. */
  lemma SiblingsShareFrame(z: Gzip, s: System, i: nat, j: nat)
    requires Enabled(s, Act(i, Take)) && Enabled(s, Act(j, Take)) && i != j
    requires s.viewers[i].conn.value.offset == s.viewers[j].conn.value.offset
    requires Enabled(Step(z, s, Act(i, Take)), Act(i, Publish))
    ensures var published := Step(z, Step(z, s, Act(i, Take)), Act(i, Publish));
      var frame := published.viewers[i].conn.value.stage.frame;
      && Enabled(published, Act(j, Take))
      && (|frame| <= 512 * 1024 ==>
            Step(z, published, Act(j, Take)).viewers[j].conn.value.stage == Sending(frame))
      && (|frame| > 512 * 1024 ==> published.ring == s.ring)
  {
  }
}
