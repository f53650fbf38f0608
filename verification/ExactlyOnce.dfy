/** Exactly-once delivery: over every run, each viewer shows the PTY history up to its offset, once and in order. */
module ExactlyOnce {
  import opened Text
  import opened ByteStrings
  import opened PtyRings
  import opened LiveStream

  // ------------------------------------------------------------ what a viewer has shown

  function TermBytes(term: seq<Cell>): Bytes {
    if term == [] then []
    else TermBytes(term[..|term| - 1]) + (match term[|term| - 1] case Output(b) => [b] case Preview(_) => [])
  }

  lemma {:induction false} TermOutputs(term: seq<Cell>, b: Bytes)
    ensures TermBytes(term + Outputs(b)) == TermBytes(term) + b
  {
    if b == [] {
      assert term + Outputs(b) == term;
    } else {
      var front := b[..|b| - 1];
      assert (term + Outputs(b))[..|term| + |b| - 1] == term + Outputs(front);
      TermOutputs(term, front);
      assert front + [b[|b| - 1]] == b;
    }
  }

  lemma {:induction false} TermPreviews(term: seq<Cell>, b: Bytes)
    ensures TermBytes(term + Previews(b)) == TermBytes(term)
  {
    if b == [] {
      assert term + Previews(b) == term;
    } else {
      var front := b[..|b| - 1];
      assert (term + Previews(b))[..|term| + |b| - 1] == term + Previews(front);
      TermPreviews(term, front);
    }
  }

  ghost predicate NoPreview(term: seq<Cell>) {
    forall i :: 0 <= i < |term| ==> term[i].Output?
  }

  /** The terminal's authoritative bytes, and the queue behind them. */
  function Written(c: Client): Bytes {
    TermBytes(c.term) + c.pending
  }

  function Received(z: Gzip, c: Client): Bytes {
    Written(c) + TasksBytes(z, c.chain)
  }

  function StageBytes(z: Gzip, s: Stage): Bytes {
    match s
    case Idle => []
    case Encoding(_, _, chunk) => chunk
    case Sending(frame) => FrameBytes(z, frame)
  }

  // ------------------------------------------------------------ invariants

  /** The offset counts what was written or queued, and a preview is only ever on an otherwise blank terminal. */
  ghost predicate ClientOk(c: Client) {
    && |Written(c)| == c.ringOffset
    && (c.previewReset ==> c.ringOffset == 0)
    && (!c.previewReset ==> NoPreview(c.term))
  }

  /** A preview is queued only ahead of all output: `n` bytes come before `tasks`. */
  ghost predicate PaintsFirst(z: Gzip, n: nat, tasks: seq<Task>) {
    forall i :: 0 <= i < |tasks| && tasks[i].Paint? ==> n == 0 && TasksBytes(z, tasks[..i]) == []
  }

  /** `b` is the history from `from`, or from some earlier floor above it, up to `to`. */
  ghost predicate CutAt(b: Bytes, history: Bytes, from: nat, to: nat, floor: nat) {
    var start := if from < floor then floor else from;
    from < to <= |history| && start <= to && b == history[start..to]
  }

  ghost predicate Cut(b: Bytes, history: Bytes, from: nat, to: nat, base: nat) {
    exists floor: nat :: floor <= base && CutAt(b, history, from, to, floor)
  }

  /** A cut that reaches the end of the history is what the ring itself would answer now. */
  ghost predicate Current(b: Bytes, r: Ring, from: nat, to: nat) {
    r.base <= |r.history| && (to == |r.history| ==> b == Tail(r.history, r.base, from))
  }

  ghost predicate IsOutFrame(frame: Bytes) {
    OnMessage(frame).Some? && !OnMessage(frame).value.Paint?
  }

  ghost predicate CacheOk(z: Gzip, r: Ring) {
    r.cache.Some? ==>
      && IsOutFrame(r.cache.value.frame)
      && Cut(FrameBytes(z, r.cache.value.frame), r.history, r.cache.value.from, r.cache.value.to, r.base)
      && Current(FrameBytes(z, r.cache.value.frame), r, r.cache.value.from, r.cache.value.to)
  }

  /** What holds of every viewer, sound or not. */
  ghost predicate StageOk(r: Ring, v: Viewer) {
    v.conn.Some? ==>
      match v.conn.value.stage
      case Idle => true
      case Encoding(from, to, chunk) => Cut(chunk, r.history, from, to, r.base) && Current(chunk, r, from, to)
      case Sending(frame) => IsOutFrame(frame)
  }

  ghost predicate ConnOk(z: Gzip, history: Bytes, c: Client, k: Conn) {
    && k.since <= k.offset <= |history|
    && Received(z, c) + FramesBytes(z, k.net) + StageBytes(z, k.stage) == history[..k.offset]
    && FramesBytes(z, k.sent) + StageBytes(z, k.stage) == history[k.since..k.offset]
    && PaintsFirst(z, c.ringOffset, c.chain + Tasks(k.net))
    && (!k.greeted ==> k.offset == k.since && k.stage.Idle?)
  }

  ghost predicate ViewerOk(z: Gzip, history: Bytes, v: Viewer) {
    && ClientOk(v.client)
    && match v.conn
       case Some(k) => ConnOk(z, history, v.client, k)
       case None => IsPrefix(Received(z, v.client), history) && PaintsFirst(z, v.client.ringOffset, v.client.chain)
  }

  ghost predicate Inv(z: Gzip, s: System) {
    && s.ring.base <= |s.ring.history|
    && CacheOk(z, s.ring)
    && forall i :: 0 <= i < |s.viewers| ==>
         StageOk(s.ring, s.viewers[i]) && (s.viewers[i].sound ==> ViewerOk(z, s.ring.history, s.viewers[i]))
  }

  // ------------------------------------------------------------ algebra of tasks and frames

  lemma {:induction false} TasksSnoc(z: Gzip, tasks: seq<Task>, t: Task)
    ensures TasksBytes(z, tasks + [t]) == TasksBytes(z, tasks) + TaskBytes(z, t)
  {
    if tasks == [] {
      assert tasks + [t] == [t];
    } else {
      assert (tasks + [t])[1..] == tasks[1..] + [t];
      TasksSnoc(z, tasks[1..], t);
    }
  }

  lemma {:induction false} FramesHead(z: Gzip, frames: seq<Bytes>)
    requires frames != []
    ensures FramesBytes(z, frames) == FrameBytes(z, frames[0]) + FramesBytes(z, frames[1..])
  {
    if |frames| == 1 {
      assert frames[..0] == [] && frames[1..] == [];
    } else {
      var front, rest := frames[..|frames| - 1], frames[1..];
      var last := FrameBytes(z, frames[|frames| - 1]);
      FramesHead(z, front);
      assert front[1..] == rest[..|rest| - 1] && rest[|rest| - 1] == frames[|frames| - 1];
      assert FramesBytes(z, rest) == FramesBytes(z, front[1..]) + last;
      Assoc(FrameBytes(z, frames[0]), FramesBytes(z, front[1..]), last);
    }
  }

  lemma FramesSnoc(z: Gzip, frames: seq<Bytes>, f: Bytes)
    ensures FramesBytes(z, frames + [f]) == FramesBytes(z, frames) + FrameBytes(z, f)
  {
    assert (frames + [f])[..|frames|] == frames;
  }

  lemma {:induction false} TasksOfSnoc(frames: seq<Bytes>, f: Bytes)
    ensures Tasks(frames + [f]) == Tasks(frames) + TaskOf(f)
  {
    if frames == [] {
      assert frames + [f] == [f] && [f][1..] == [] && TaskOf(f) + [] == [] + TaskOf(f);
    } else {
      assert (frames + [f])[1..] == frames[1..] + [f];
      TasksOfSnoc(frames[1..], f);
      Assoc(TaskOf(frames[0]), Tasks(frames[1..]), TaskOf(f));
    }
  }

  lemma {:induction false} TasksBytesAppend(z: Gzip, a: seq<Task>, b: seq<Task>)
    ensures TasksBytes(z, a + b) == TasksBytes(z, a) + TasksBytes(z, b)
  {
    if a == [] {
      assert a + b == b;
    } else {
      assert (a + b)[1..] == a[1..] + b;
      TasksBytesAppend(z, a[1..], b);
      Assoc(TaskBytes(z, a[0]), TasksBytes(z, a[1..]), TasksBytes(z, b));
    }
  }

  lemma {:induction false} TasksOfBytes(z: Gzip, frames: seq<Bytes>)
    ensures TasksBytes(z, Tasks(frames)) == FramesBytes(z, frames)
  {
    if frames != [] {
      FramesHead(z, frames);
      TasksOfBytes(z, frames[1..]);
      TasksBytesAppend(z, TaskOf(frames[0]), Tasks(frames[1..]));
    }
  }

  lemma PaintsFirstSnoc(z: Gzip, n: nat, tasks: seq<Task>, t: Task)
    requires PaintsFirst(z, n, tasks) && (t.Paint? ==> n == 0 && TasksBytes(z, tasks) == [])
    ensures PaintsFirst(z, n, tasks + [t])
  {
    var s := tasks + [t];
    forall i | 0 <= i < |s| && s[i].Paint? ensures n == 0 && TasksBytes(z, s[..i]) == [] {
      if i < |tasks| { assert s[..i] == tasks[..i]; } else { assert s[..i] == tasks; }
    }
  }

  lemma PaintsFirstPrefix(z: Gzip, n: nat, a: seq<Task>, b: seq<Task>)
    requires PaintsFirst(z, n, a + b)
    ensures PaintsFirst(z, n, a)
  {
    forall i | 0 <= i < |a| && a[i].Paint? ensures n == 0 && TasksBytes(z, a[..i]) == [] {
      assert (a + b)[i] == a[i] && (a + b)[..i] == a[..i];
    }
  }

  lemma PaintsFirstTail(z: Gzip, n: nat, tasks: seq<Task>)
    requires tasks != [] && PaintsFirst(z, n, tasks)
    ensures PaintsFirst(z, n + |TaskBytes(z, tasks[0])|, tasks[1..])
  {
    var rest := tasks[1..];
    forall i | 0 <= i < |rest| && rest[i].Paint?
      ensures n + |TaskBytes(z, tasks[0])| == 0 && TasksBytes(z, rest[..i]) == []
    {
      assert tasks[i + 1] == rest[i] && tasks[..i + 1][1..] == rest[..i];
    }
  }

  // ------------------------------------------------------------ the client's steps

  lemma HandleOutOk(c: Client, b: Bytes)
    requires ClientOk(c)
    ensures ClientOk(HandleOut(c, b)) && Written(HandleOut(c, b)) == Written(c) + b
    ensures HandleOut(c, b).ringOffset == c.ringOffset + |b| && HandleOut(c, b).chain == c.chain
    ensures !HandleOut(c, b).previewReset
  {
    var d := if c.previewReset then c.(previewReset := false, term := []) else c;
    assert Written(d) == Written(c) by {
      if c.previewReset { assert Written(c) == [] && c.pending == []; }
    }
    TermOutputs(d.term, d.pending);
    TermOutputs(d.term + Outputs(d.pending), b);
  }

  lemma FlushPendingOk(c: Client)
    requires ClientOk(c)
    ensures ClientOk(FlushPending(c)) && Written(FlushPending(c)) == Written(c)
    ensures FlushPending(c).ringOffset == c.ringOffset && FlushPending(c).chain == c.chain
  {
    TermOutputs(c.term, c.pending);
  }

  lemma PaintOk(c: Client, text: Bytes)
    requires ClientOk(c) && c.ringOffset == 0
    ensures ClientOk(PaintPreview(c, text)) && Written(PaintPreview(c, text)) == Written(c)
  {
    TermPreviews(c.term, text);
  }

  lemma RunTaskOk(z: Gzip, c: Client)
    requires ClientOk(c) && c.chain != [] && PaintsFirst(z, c.ringOffset, c.chain)
    ensures var d := RunTask(z, c);
            && ClientOk(d) && Received(z, d) == Received(z, c) && d.chain == c.chain[1..]
            && d.ringOffset == c.ringOffset + |TaskBytes(z, c.chain[0])|
  {
    var d := c.(chain := c.chain[1..]);
    var t := c.chain[0];
    var rest := TasksBytes(z, c.chain[1..]);
    assert TasksBytes(z, c.chain) == TaskBytes(z, t) + rest;
    if t.Paint? {
      PaintOk(d, t.bytes);
    } else if t.Write? || z.unpack(t.bytes).Some? {
      HandleOutOk(d, TaskBytes(z, t));
      assert (Written(c) + TaskBytes(z, t)) + rest == Written(c) + (TaskBytes(z, t) + rest);
    }
  }

  // ------------------------------------------------------------ the system's steps

  lemma CutGrows(b: Bytes, history: Bytes, more: Bytes, from: nat, to: nat, base: nat, base': nat)
    requires Cut(b, history, from, to, base) && base <= base'
    ensures Cut(b, history + more, from, to, base')
  {
    var floor: nat :| floor <= base && CutAt(b, history, from, to, floor);
    var start := if from < floor then floor else from;
    assert (history + more)[start..to] == history[start..to];
    assert CutAt(b, history + more, from, to, floor);
  }

  /** A cut taken from no later than the floor now is whole when the floor is not above `from`. */
  lemma CutIsWhole(b: Bytes, history: Bytes, from: nat, to: nat, base: nat)
    requires Cut(b, history, from, to, base) && base <= from
    ensures b == history[from..to]
  {
  }

  lemma TakeStage(z: Gzip, r: Ring, v: Viewer)
    requires r.base <= |r.history| && CacheOk(z, r) && Ready(r, v, Take)
    ensures StageOk(r, ActStep(z, r, v, Take).1)
  {
    var offset := v.conn.value.offset;
    var f := TakeStep(r, offset);
    if f.Fresh? && f.chunk != [] {
      assert CutAt(f.chunk, r.history, offset, |r.history|, r.base);
    }
  }

  /** The flush of a viewer the floor has not passed stages exactly the new suffix. */
  lemma TakeIsSuffix(z: Gzip, r: Ring, offset: nat)
    requires r.base <= |r.history| && CacheOk(z, r) && offset <= |r.history|
    requires offset == |r.history| || r.base <= offset
    ensures match TakeStep(r, offset)
            case Nothing => offset == |r.history|
            case Shared(frame) => FrameBytes(z, frame) == r.history[offset..]
            case Fresh(from, to, chunk) => chunk == r.history[offset..] && chunk != []
  {
    var f := TakeStep(r, offset);
    if f.Shared? {
      CutIsWhole(FrameBytes(z, f.frame), r.history, offset, |r.history|, r.base);
    }
  }

  lemma TakeOk(z: Gzip, r: Ring, v: Viewer)
    requires r.base <= |r.history| && CacheOk(z, r) && Ready(r, v, Take) && v.sound && ViewerOk(z, r.history, v)
    ensures ActStep(z, r, v, Take).1.sound ==> ViewerOk(z, r.history, ActStep(z, r, v, Take).1)
  {
    var k := v.conn.value;
    var v' := ActStep(z, r, v, Take).1;
    if v'.sound {
      TakeIsSuffix(z, r, k.offset);
      var suffix := StageBytes(z, v'.conn.value.stage);
      var history := r.history;
      assert suffix == history[k.offset..];
      Extend(Received(z, v.client) + FramesBytes(z, k.net), history, 0, k.offset);
      Extend(FramesBytes(z, k.sent), history, k.since, k.offset);
    }
  }

  /** A prefix that is caught up, continued by the new suffix, is the whole. */
  lemma Extend(got: Bytes, history: Bytes, from: nat, to: nat)
    requires from <= to <= |history| && got + [] == history[from..to]
    ensures got + history[to..] == history[from..|history|]
  {
    assert got + [] == got;
    assert history[from..to] + history[to..] == history[from..|history|];
  }

  lemma PublishOk(z: Gzip, r: Ring, v: Viewer)
    requires z.Faithful() && Ready(r, v, Publish) && r.base <= |r.history| && CacheOk(z, r) && StageOk(r, v)
    ensures var (r', v') := ActStep(z, r, v, Publish);
            && CacheOk(z, r') && StageOk(r', v') && r'.history == r.history && r'.base == r.base
            && (v.sound && ViewerOk(z, r.history, v) ==> ViewerOk(z, r.history, v'))
  {
    EncodedCarriesChunk(z, v.conn.value.stage.chunk);
  }

  /** Bytes that leave the stage for the wire keep their place in the stream. */
  lemma MoveBytes(x: Bytes, wire: Bytes, b: Bytes, left: Bytes, stage: Bytes)
    requires b + left == stage
    ensures x + (wire + b) + left == x + wire + stage
  {
    assert (x + (wire + b)) + left == (x + wire) + (b + left);
  }

  lemma EmitPaints(z: Gzip, n: nat, chain: seq<Task>, net: seq<Bytes>, frame: Bytes)
    requires PaintsFirst(z, n, chain + Tasks(net))
    requires OnMessage(frame).Some? && OnMessage(frame).value.Paint? ==>
               n == 0 && TasksBytes(z, chain + Tasks(net)) == []
    ensures PaintsFirst(z, n, chain + Tasks(net + [frame]))
  {
    TasksOfSnoc(net, frame);
    if OnMessage(frame).Some? {
      var t := OnMessage(frame).value;
      PaintsFirstSnoc(z, n, chain + Tasks(net), t);
      assert chain + (Tasks(net) + [t]) == (chain + Tasks(net)) + [t];
    } else {
      assert Tasks(net) + TaskOf(frame) == Tasks(net);
    }
  }

  lemma EmitOk(z: Gzip, history: Bytes, c: Client, k: Conn, frame: Bytes, k': Conn)
    requires ConnOk(z, history, c, k)
    requires k' == Emit(k, frame).(stage := k'.stage, greeted := k'.greeted)
    requires FrameBytes(z, frame) + StageBytes(z, k'.stage) == StageBytes(z, k.stage)
    requires OnMessage(frame).Some? && OnMessage(frame).value.Paint? ==>
               c.ringOffset == 0 && TasksBytes(z, c.chain + Tasks(k.net)) == []
    requires !k'.greeted ==> !k.greeted && k'.stage.Idle?
    ensures ConnOk(z, history, c, k')
  {
    FramesSnoc(z, k.net, frame);
    FramesSnoc(z, k.sent, frame);
    var b, left, stage := FrameBytes(z, frame), StageBytes(z, k'.stage), StageBytes(z, k.stage);
    MoveBytes(Received(z, c), FramesBytes(z, k.net), b, left, stage);
    MoveBytes([], FramesBytes(z, k.sent), b, left, stage);
    assert [] + FramesBytes(z, k.sent) == FramesBytes(z, k.sent);
    assert [] + (FramesBytes(z, k.sent) + b) == FramesBytes(z, k.sent) + b;
    EmitPaints(z, c.ringOffset, c.chain, k.net, frame);
  }

  lemma SendPreviewOk(z: Gzip, r: Ring, v: Viewer, text: Bytes)
    requires Ready(r, v, SendPreview(text)) && ViewerOk(z, r.history, v) && r.base <= |r.history|
    ensures ViewerOk(z, r.history, ActStep(z, r, v, SendPreview(text)).1)
  {
    var k := v.conn.value;
    var frame := EncodeFrame(TAG_PREVIEW, text);
    assert FrameBytes(z, frame) == [];
    TasksOfBytes(z, k.net);
    TasksBytesAppend(z, v.client.chain, Tasks(k.net));
    assert |Received(z, v.client) + FramesBytes(z, k.net)| == 0;
    EmitOk(z, r.history, v.client, k, frame, ActStep(z, r, v, SendPreview(text)).1.conn.value);
  }

  lemma SendMetaOk(z: Gzip, r: Ring, v: Viewer, payload: Bytes)
    requires Ready(r, v, SendMeta(payload)) && ViewerOk(z, r.history, v) && r.base <= |r.history|
    ensures ViewerOk(z, r.history, ActStep(z, r, v, SendMeta(payload)).1)
  {
    var k := v.conn.value;
    EmitOk(z, r.history, v.client, k, EncodeFrame(TAG_META, payload), ActStep(z, r, v, SendMeta(payload)).1.conn.value);
  }

  lemma SendOk(z: Gzip, r: Ring, v: Viewer)
    requires Ready(r, v, Send) && ViewerOk(z, r.history, v) && r.base <= |r.history| && StageOk(r, v)
    ensures ViewerOk(z, r.history, ActStep(z, r, v, Send).1)
  {
    var k := v.conn.value;
    EmitOk(z, r.history, v.client, k, k.stage.frame, ActStep(z, r, v, Send).1.conn.value);
  }

  lemma TaskOfBytes(z: Gzip, frame: Bytes)
    ensures TasksBytes(z, TaskOf(frame)) == FrameBytes(z, frame)
  {
  }

  lemma Regroup<T>(w: seq<T>, q: seq<T>, f: seq<T>, rest: seq<T>)
    ensures (w + (q + f)) + rest == (w + q) + (f + rest)
  {
  }

  lemma Blank<T>(s: seq<T>)
    ensures [] + s == s
  {
  }

  lemma DeliverStream(z: Gzip, c: Client, c': Client, net: seq<Bytes>)
    requires net != [] && c' == c.(chain := c.chain + TaskOf(net[0]))
    ensures Received(z, c') + FramesBytes(z, net[1..]) == Received(z, c) + FramesBytes(z, net)
    ensures c'.chain + Tasks(net[1..]) == c.chain + Tasks(net)
  {
    FramesHead(z, net);
    TaskOfBytes(z, net[0]);
    TasksBytesAppend(z, c.chain, TaskOf(net[0]));
    Regroup(Written(c), TasksBytes(z, c.chain), FrameBytes(z, net[0]), FramesBytes(z, net[1..]));
    Regroup([], c.chain, TaskOf(net[0]), Tasks(net[1..]));
    Blank(c.chain);
    Blank(c.chain + TaskOf(net[0]));
  }

  lemma DeliverOk(z: Gzip, r: Ring, v: Viewer)
    requires Ready(r, v, Deliver) && ViewerOk(z, r.history, v) && r.base <= |r.history|
    ensures ViewerOk(z, r.history, ActStep(z, r, v, Deliver).1)
  {
    var v' := ActStep(z, r, v, Deliver).1;
    DeliverStream(z, v.client, v'.client, v.conn.value.net);
  }

  lemma RunPaints(z: Gzip, c: Client, later: seq<Task>)
    requires ClientOk(c) && c.chain != [] && PaintsFirst(z, c.ringOffset, c.chain + later)
    ensures PaintsFirst(z, RunTask(z, c).ringOffset, RunTask(z, c).chain + later)
    ensures ClientOk(RunTask(z, c)) && Received(z, RunTask(z, c)) == Received(z, c)
  {
    PaintsFirstPrefix(z, c.ringOffset, c.chain, later);
    RunTaskOk(z, c);
    PaintsFirstTail(z, c.ringOffset, c.chain + later);
    assert (c.chain + later)[1..] == c.chain[1..] + later;
  }

  lemma RunOk(z: Gzip, r: Ring, v: Viewer)
    requires Ready(r, v, Run) && ViewerOk(z, r.history, v) && r.base <= |r.history|
    ensures ViewerOk(z, r.history, ActStep(z, r, v, Run).1)
  {
    var c := v.client;
    if v.conn.Some? {
      RunPaints(z, c, Tasks(v.conn.value.net));
    } else {
      assert c.chain + [] == c.chain && RunTask(z, c).chain + [] == RunTask(z, c).chain;
      RunPaints(z, c, []);
    }
  }

  lemma PrefixOfTake(a: Bytes, b: Bytes, history: Bytes, n: nat)
    requires n <= |history| && a + b == history[..n]
    ensures IsPrefix(a, history)
  {
    assert a == (a + b)[..|a|];
  }

  lemma ReceivedIsHistory(z: Gzip, history: Bytes, v: Viewer)
    requires ViewerOk(z, history, v)
    ensures IsPrefix(Received(z, v.client), history)
  {
    if v.conn.Some? {
      var k := v.conn.value;
      ThreePartsPrefix(Received(z, v.client), FramesBytes(z, k.net), StageBytes(z, k.stage), history, k.offset);
    }
  }

  lemma ThreePartsPrefix(a: Bytes, b: Bytes, c: Bytes, history: Bytes, n: nat)
    requires n <= |history| && a + b + c == history[..n]
    ensures IsPrefix(a, history)
  {
    assert a + b + c == a + (b + c);
    PrefixOfTake(a, b + c, history, n);
  }

  lemma DropOk(z: Gzip, r: Ring, v: Viewer)
    requires Ready(r, v, Drop) && ViewerOk(z, r.history, v) && r.base <= |r.history|
    ensures ViewerOk(z, r.history, ActStep(z, r, v, Drop).1)
  {
    var k := v.conn.value;
    PaintsFirstPrefix(z, v.client.ringOffset, v.client.chain, Tasks(k.net));
    ReceivedIsHistory(z, r.history, v);
  }

  lemma ReconnectOk(z: Gzip, r: Ring, v: Viewer)
    requires Ready(r, v, Reconnect) && ViewerOk(z, r.history, v) && r.base <= |r.history| && v.client.chain == []
    ensures ViewerOk(z, r.history, ActStep(z, r, v, Reconnect).1)
  {
    var c := v.client;
    assert Received(z, c) == Written(c);
    assert c.chain + Tasks([]) == [];
    assert r.history[c.ringOffset..c.ringOffset] == [];
  }

  lemma ActKeepsRing(z: Gzip, r: Ring, v: Viewer, a: Action)
    requires z.Faithful() && r.base <= |r.history| && CacheOk(z, r) && Ready(r, v, a) && StageOk(r, v)
    ensures var (r', v') := ActStep(z, r, v, a);
            r'.history == r.history && r'.base == r.base && CacheOk(z, r') && StageOk(r', v')
  {
    if a.Take? { TakeStage(z, r, v); }
    if a.Publish? { PublishOk(z, r, v); }
  }

  lemma ActKeepsViewer(z: Gzip, r: Ring, v: Viewer, a: Action)
    requires z.Faithful() && r.base <= |r.history| && CacheOk(z, r) && Ready(r, v, a) && StageOk(r, v)
    requires v.sound && ViewerOk(z, r.history, v)
    ensures ActStep(z, r, v, a).1.sound ==> ViewerOk(z, r.history, ActStep(z, r, v, a).1)
  {
    match a
    case Take => TakeOk(z, r, v);
    case Publish => PublishOk(z, r, v);
    case Send => SendOk(z, r, v);
    case SendPreview(text) => SendPreviewOk(z, r, v, text);
    case SendMeta(payload) => SendMetaOk(z, r, v, payload);
    case Deliver => DeliverOk(z, r, v);
    case Run => RunOk(z, r, v);
    case Flush => FlushPendingOk(v.client);
    case Drop => DropOk(z, r, v);
    case Reconnect => if v.client.chain == [] { ReconnectOk(z, r, v); }
    case _ =>
  }

  /** No action makes an unsound viewer sound again. */
  lemma SoundnessIsLost(z: Gzip, r: Ring, v: Viewer, a: Action)
    requires r.base <= |r.history| && Ready(r, v, a)
    ensures ActStep(z, r, v, a).1.sound ==> v.sound
  {
  }

  lemma ActOk(z: Gzip, r: Ring, v: Viewer, a: Action)
    requires z.Faithful() && r.base <= |r.history| && CacheOk(z, r) && Ready(r, v, a) && StageOk(r, v)
    requires v.sound ==> ViewerOk(z, r.history, v)
    ensures var (r', v') := ActStep(z, r, v, a);
            && r'.history == r.history && r'.base == r.base
            && CacheOk(z, r') && StageOk(r', v') && (v'.sound ==> ViewerOk(z, r.history, v'))
  {
    ActKeepsRing(z, r, v, a);
    SoundnessIsLost(z, r, v, a);
    if v.sound { ActKeepsViewer(z, r, v, a); }
  }

  lemma PushViewerOk(z: Gzip, history: Bytes, data: Bytes, v: Viewer)
    requires ViewerOk(z, history, v)
    ensures ViewerOk(z, history + data, v)
  {
    if v.conn.Some? {
      var k := v.conn.value;
      assert (history + data)[..k.offset] == history[..k.offset];
      assert (history + data)[k.since..k.offset] == history[k.since..k.offset];
    } else {
      var got := Received(z, v.client);
      assert (history + data)[..|got|] == history[..|got|];
    }
  }

  lemma PushOk(z: Gzip, s: System, e: Event)
    requires Inv(z, s) && e.Push? && Enabled(s, e)
    ensures Inv(z, Step(z, s, e))
  {
    var r, r' := s.ring, Step(z, s, e).ring;
    if r'.cache.Some? {
      var c := r.cache.value;
      CutGrows(FrameBytes(z, c.frame), r.history, e.data, c.from, c.to, r.base, r'.base);
    }
    forall i | 0 <= i < |s.viewers|
      ensures StageOk(r', s.viewers[i]) && (s.viewers[i].sound ==> ViewerOk(z, r'.history, s.viewers[i]))
    {
      var v := s.viewers[i];
      if v.conn.Some? && v.conn.value.stage.Encoding? {
        var g := v.conn.value.stage;
        CutGrows(g.chunk, r.history, e.data, g.from, g.to, r.base, r'.base);
      }
      if v.sound { PushViewerOk(z, r.history, e.data, v); }
    }
  }

  lemma StepOk(z: Gzip, s: System, e: Event)
    requires z.Faithful() && Inv(z, s) && Enabled(s, e)
    ensures Inv(z, Step(z, s, e))
  {
    if e.Push? {
      PushOk(z, s, e);
    } else {
      var (r', v') := ActStep(z, s.ring, s.viewers[e.viewer], e.action);
      ActOk(z, s.ring, s.viewers[e.viewer], e.action);
      forall i | 0 <= i < |s.viewers|
        ensures StageOk(r', s.viewers[i]) && (s.viewers[i].sound ==> ViewerOk(z, r'.history, s.viewers[i]))
      {
      }
    }
  }

  // ------------------------------------------------------------ runs

  ghost predicate Reaches(z: Gzip, s: System, events: seq<Event>, t: System)
    decreases |events|
  {
    if events == [] then s == t
    else Enabled(s, events[0]) && Reaches(z, Step(z, s, events[0]), events[1..], t)
  }

  /** An empty ring and any number of viewers that have not connected yet. */
  ghost predicate Initial(s: System) {
    && s.ring == Ring([], 0, None)
    && forall i :: 0 <= i < |s.viewers| ==> s.viewers[i] == Viewer(NEW_CLIENT, None, true)
  }

  lemma {:induction false} ReachableInv(z: Gzip, s: System, events: seq<Event>, t: System)
    requires z.Faithful() && Inv(z, s) && Reaches(z, s, events, t)
    ensures Inv(z, t)
    decreases |events|
  {
    if events != [] {
      StepOk(z, s, events[0]);
      ReachableInv(z, Step(z, s, events[0]), events[1..], t);
    }
  }

  lemma InitialInv(z: Gzip, s: System)
    requires Initial(s)
    ensures Inv(z, s)
  {
    forall i | 0 <= i < |s.viewers| ensures ViewerOk(z, [], s.viewers[i]) {
      assert Received(z, NEW_CLIENT) == [];
    }
  }

  /**
    Exactly once: in every run of pushes, flushes, deliveries, drops and reconnects, a viewer whose own
    assumptions held has on its terminal and in its queue exactly the history up to `ringOffset`:
    no gap, no repeat, and no preview left once output was applied.
    */
  lemma ExactlyOnceResume(z: Gzip, s: System, events: seq<Event>, t: System, i: nat)
    requires z.Faithful() && Initial(s) && Reaches(z, s, events, t) && i < |t.viewers| && t.viewers[i].sound
    ensures var c := t.viewers[i].client;
            && c.ringOffset <= |t.ring.history|
            && TermBytes(c.term) + c.pending == t.ring.history[..c.ringOffset]
            && (c.ringOffset > 0 ==> NoPreview(c.term))
  {
    InitialInv(z, s);
    ReachableInv(z, s, events, t);
    ViewerShowsHistory(z, t.ring.history, t.viewers[i]);
  }

  lemma ViewerShowsHistory(z: Gzip, history: Bytes, v: Viewer)
    requires ViewerOk(z, history, v)
    ensures var c := v.client;
            && c.ringOffset <= |history|
            && TermBytes(c.term) + c.pending == history[..c.ringOffset]
            && (c.ringOffset > 0 ==> NoPreview(c.term))
  {
    ReceivedIsHistory(z, history, v);
    PrefixOfPrefix(Written(v.client), TasksBytes(z, v.client.chain), history);
  }

  lemma PrefixOfPrefix(a: Bytes, b: Bytes, history: Bytes)
    requires IsPrefix(a + b, history)
    ensures IsPrefix(a, history)
  {
    assert a == (a + b)[..|a|];
  }

  /** Nothing is held back: once a connection has drained, the viewer has the whole history. */
  lemma DrainedIsComplete(z: Gzip, s: System, events: seq<Event>, t: System, i: nat)
    requires z.Faithful() && Initial(s) && Reaches(z, s, events, t) && i < |t.viewers| && t.viewers[i].sound
    requires var v := t.viewers[i];
             && v.conn.Some? && v.conn.value.offset == |t.ring.history| && v.conn.value.stage.Idle?
             && v.conn.value.net == [] && v.client.chain == []
    ensures TermBytes(t.viewers[i].client.term) + t.viewers[i].client.pending == t.ring.history
  {
    InitialInv(z, s);
    ReachableInv(z, s, events, t);
    assert t.ring.history[..|t.ring.history|] == t.ring.history;
  }

  /**
    Shared frames: whichever viewer encoded a frame and whether it went raw or compressed, the frames a
    connection has sent decode to the history from its own start, up to what it has claimed but not sent.
    */
  lemma SharedFramesAgree(z: Gzip, s: System, events: seq<Event>, t: System, i: nat)
    requires z.Faithful() && Initial(s) && Reaches(z, s, events, t) && i < |t.viewers| && t.viewers[i].sound
    requires t.viewers[i].conn.Some?
    ensures var k := t.viewers[i].conn.value;
            && k.since <= k.offset <= |t.ring.history|
            && FramesBytes(z, k.sent) + StageBytes(z, k.stage) == t.ring.history[k.since..k.offset]
  {
    InitialInv(z, s);
    ReachableInv(z, s, events, t);
  }

  // ------------------------------------------------------------ the two assumptions are exact

  /** The terminal output one flush gives its viewer. */
  function FlushBytes(z: Gzip, f: OutFlush): Bytes {
    match f
    case Nothing => []
    case Shared(frame) => FrameBytes(z, frame)
    case Fresh(_, _, chunk) => chunk
  }

  /** Shared or fresh, a flush gives what the ring would answer at that moment. */
  lemma FlushIsTail(z: Gzip, r: Ring, offset: nat)
    requires r.base <= |r.history| && CacheOk(z, r) && offset <= |r.history|
    ensures FlushBytes(z, TakeStep(r, offset)) == Tail(r.history, r.base, offset)
  {
  }

  /**
    The floor assumption is exact: in every reachable system, a flush of any kind from any offset gives the
    viewer the whole new suffix if and only if the floor has not passed the offset.
    */
  lemma FlushWholeIff(z: Gzip, s: System, events: seq<Event>, t: System, offset: nat)
    requires z.Faithful() && Initial(s) && Reaches(z, s, events, t) && offset < |t.ring.history|
    ensures t.ring.base <= |t.ring.history|
    ensures FlushBytes(z, TakeStep(t.ring, offset)) == t.ring.history[offset..] <==> t.ring.base <= offset
  {
    InitialInv(z, s);
    ReachableInv(z, s, events, t);
    FlushIsTail(z, t.ring, offset);
    if t.ring.base > offset {
      assert |Tail(t.ring.history, t.ring.base, offset)| < |t.ring.history[offset..]|;
    }
  }

  /** So a flush ends a viewer's soundness exactly when it loses bytes. */
  lemma TakeSoundIff(z: Gzip, s: System, events: seq<Event>, t: System, i: nat)
    requires z.Faithful() && Initial(s) && Reaches(z, s, events, t)
    requires i < |t.viewers| && Ready(t.ring, t.viewers[i], Take)
    requires t.viewers[i].conn.value.offset <= |t.ring.history|
    ensures var v := t.viewers[i];
      && t.ring.base <= |t.ring.history|
      && (ActStep(z, t.ring, v, Take).1.sound <==>
          v.sound && FlushBytes(z, TakeStep(t.ring, v.conn.value.offset)) == t.ring.history[v.conn.value.offset..])
  {
    InitialInv(z, s);
    ReachableInv(z, s, events, t);
    if t.viewers[i].conn.value.offset < |t.ring.history| {
      FlushWholeIff(z, s, events, t, t.viewers[i].conn.value.offset);
    }
  }

  /** What a viewer will have been given once a reconnect from its present offset has drained. */
  function Promised(z: Gzip, r: Ring, c: Client): Bytes
    requires r.base <= |r.history|
  {
    Received(z, c) + Tail(r.history, r.base, c.ringOffset)
  }

  /**
    Reconnecting gives the viewer the history, no more and no less, exactly when the frames still unapplied
    reach from its offset to where the server will resume: none at all, unless the floor has passed it.
    */
  lemma ReconnectExactIff(z: Gzip, r: Ring, v: Viewer)
    requires r.base <= |r.history| && v.conn.None? && ViewerOk(z, r.history, v)
    ensures var c := v.client;
            Promised(z, r, c) == r.history <==>
            c.ringOffset + |TasksBytes(z, c.chain)| == if c.ringOffset < r.base then r.base else c.ringOffset
  {
    var c := v.client;
    var got := Received(z, c);
    var start := if c.ringOffset < r.base then r.base else c.ringOffset;
    assert Tail(r.history, r.base, c.ringOffset) == r.history[start..];
    assert |got| == c.ringOffset + |TasksBytes(z, c.chain)| && got == r.history[..|got|];
    if |got| == start {
      assert got + r.history[start..] == r.history;
    } else {
      assert |Promised(z, r, c)| != |r.history|;
    }
  }

  /** An offset beyond the history (a page that outlived the daemon) gets nothing; only newer bytes follow. */
  lemma ResumePastTheEnd(z: Gzip, r: Ring, v: Viewer)
    requires r.base <= |r.history| && CacheOk(z, r) && Ready(r, v, Take) && v.conn.value.offset > |r.history|
    ensures var k := ActStep(z, r, v, Take).1.conn.value;
            k.stage.Idle? && k.offset == |r.history| && k.net == v.conn.value.net
  {
  }
}
