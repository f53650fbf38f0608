/**
  A page that outlives the daemon: its offset counts bytes of the old history, and the new daemon's history starts
  over. What it misses is set by how far its offset runs ahead.
  */
module DaemonRestart {
  import opened Text
  import opened ByteStrings
  import opened PtyRings
  import opened LiveStream
  import opened ExactlyOnce

  /** The daemon ends and a new one begins: every connection drops, the ring is empty, the pages stay as they are. */
  function Restarted(s: System): System {
    var viewers := seq(|s.viewers|, i requires 0 <= i < |s.viewers| => Viewer(s.viewers[i].client, None, false));
    System(Ring([], 0, None), viewers)
  }

  /** Where in the history the bytes of a connection resumed at `since` begin, `length` bytes being there already. */
  function Begin(since: nat, length: nat): nat {
    if since < length then since else length
  }

  /**
    What one viewer has had of the new history. Its offset is `lead` ahead of where it stands; `missed` bytes before
    that were never sent to it; `got` is what was handed to the page, namely the finished `parts` of the history and,
    once the present or last connection has flushed, the bytes from `from` on.
    */
  datatype Track = Track(lead: nat, missed: nat, from: Option<nat>, parts: seq<(nat, nat)>, got: Bytes)

  /** The page's offset, once it has applied all it was handed. */
  function Total(z: Gzip, c: Client): nat {
    c.ringOffset + |TasksBytes(z, c.chain)|
  }

  function Fresh(z: Gzip, c: Client): Track {
    Track(Total(z, c), 0, None, [], [])
  }

  /** Stretches of the history one after the other, none beyond `length`. */
  predicate Bounded(parts: seq<(nat, nat)>, length: nat) {
    parts == [] ||
    (var (a, b) := parts[|parts| - 1]; a <= b <= length && Bounded(parts[..|parts| - 1], a))
  }

  lemma BoundedWider(parts: seq<(nat, nat)>, length: nat, wider: nat)
    requires Bounded(parts, length) && length <= wider
    ensures Bounded(parts, wider)
  {
  }

  /** Those stretches, joined. */
  function Pieces(history: Bytes, parts: seq<(nat, nat)>): Bytes
    requires Bounded(parts, |history|)
  {
    if parts == [] then []
    else
      var (a, b) := parts[|parts| - 1];
      BoundedWider(parts[..|parts| - 1], a, |history|);
      Pieces(history, parts[..|parts| - 1]) + history[a..b]
  }

  /** Bytes a connection still owes the page: on the wire, and staged. */
  function Owed(z: Gzip, k: Conn): Bytes {
    FramesBytes(z, k.net) + StageBytes(z, k.stage)
  }

  function Sent(z: Gzip, k: Conn): Bytes {
    FramesBytes(z, k.sent) + StageBytes(z, k.stage)
  }

  /** The viewer stands at position `p` of the history. */
  ghost predicate StandsAt(z: Gzip, c: Client, t: Track, p: nat) {
    Total(z, c) == p + t.lead && |t.got| + t.missed == p
  }

  ghost predicate GotIs(history: Bytes, from: Option<nat>, parts: seq<(nat, nat)>, got: Bytes, p: nat) {
    && p <= |history|
    && match from
       case None => Bounded(parts, p) && got == Pieces(history, parts)
       case Some(f) => f <= p && Bounded(parts, f) && got == Pieces(history, parts) + history[f..p]
  }

  ghost predicate ConnFollows(z: Gzip, history: Bytes, k: Conn, lead: nat, from: Option<nat>, p: nat) {
    match from
    case None =>
      k.offset == k.since == p + lead && k.stage.Idle? && FramesBytes(z, k.net) == [] && FramesBytes(z, k.sent) == []
    case Some(f) =>
      && f <= p <= k.offset <= |history| && k.since == f + lead
      && Owed(z, k) == history[p..k.offset] && Sent(z, k) == history[f..k.offset]
  }

  ghost predicate FollowsAt(z: Gzip, history: Bytes, v: Viewer, t: Track, p: nat) {
    && StandsAt(z, v.client, t, p) && GotIs(history, t.from, t.parts, t.got, p)
    && (v.conn.Some? ==> ConnFollows(z, history, v.conn.value, t.lead, t.from, p))
  }

  ghost predicate Follows(z: Gzip, history: Bytes, v: Viewer, t: Track) {
    t.lead <= Total(z, v.client) && FollowsAt(z, history, v, t, Total(z, v.client) - t.lead)
  }

  /** How the account changes: at a connection's first flush, at a delivery, and when a new connection begins. */
  function TrackStep(z: Gzip, r: Ring, v: Viewer, t: Track, a: Action): Track
    requires Ready(r, v, a) && t.lead <= Total(z, v.client)
  {
    var p := Total(z, v.client) - t.lead;
    match a
    case Take =>
      if t.from.Some? then t
      else
        var since := v.conn.value.since;
        var from := Begin(since, |r.history|);
        var gap := if p <= from then from - p else 0;
        t.(lead := since - from, missed := t.missed + gap, from := Some(from))
    case Deliver => t.(got := t.got + FrameBytes(z, v.conn.value.net[0]))
    case Reconnect =>
      if t.from.Some? then t.(from := None, parts := t.parts + [(t.from.value, p)]) else t
    case _ => t
  }

  /** What the account asks of a step: the floor has not passed the flush, and a reconnect finds everything applied. */
  predicate Kept(r: Ring, v: Viewer, a: Action)
    requires Ready(r, v, a)
  {
    match a
    case Take => r.base <= Begin(v.conn.value.offset, |r.history|)
    case Reconnect => v.client.chain == []
    case _ => true
  }

  // ------------------------------------------------------------ one step

  lemma Together(z: Gzip, history: Bytes, v: Viewer, t: Track, p: nat)
    requires StandsAt(z, v.client, t, p) && GotIs(history, t.from, t.parts, t.got, p)
    requires v.conn.Some? ==> ConnFollows(z, history, v.conn.value, t.lead, t.from, p)
    ensures Follows(z, history, v, t)
  {
  }

  /** A flush gives exactly the history from where it begins. */
  lemma ResumeBegins(z: Gzip, r: Ring, since: nat)
    requires r.base <= |r.history| && CacheOk(z, r) && r.base <= Begin(since, |r.history|)
    ensures FlushBytes(z, TakeStep(r, since)) == r.history[Begin(since, |r.history|)..]
  {
    if since <= |r.history| {
      FlushIsTail(z, r, since);
    }
  }

  lemma {:induction false} PiecesGrow(history: Bytes, more: Bytes, parts: seq<(nat, nat)>)
    requires Bounded(parts, |history|)
    ensures Bounded(parts, |history + more|) && Pieces(history + more, parts) == Pieces(history, parts)
  {
    if parts != [] {
      var (a, b) := parts[|parts| - 1];
      BoundedWider(parts[..|parts| - 1], a, |history|);
      PiecesGrow(history, more, parts[..|parts| - 1]);
      assert (history + more)[a..b] == history[a..b];
    }
  }

  lemma PiecesSnoc(history: Bytes, parts: seq<(nat, nat)>, a: nat, b: nat)
    requires Bounded(parts, a) && a <= b <= |history|
    ensures Bounded(parts + [(a, b)], b)
    ensures Pieces(history, parts + [(a, b)]) == Pieces(history, parts) + history[a..b]
  {
    assert (parts + [(a, b)])[..|parts|] == parts;
  }

  lemma PushGot(history: Bytes, more: Bytes, from: Option<nat>, parts: seq<(nat, nat)>, got: Bytes, p: nat)
    requires GotIs(history, from, parts, got, p)
    ensures GotIs(history + more, from, parts, got, p)
  {
    PiecesGrow(history, more, parts);
    if from.Some? { assert (history + more)[from.value..p] == history[from.value..p]; }
  }

  lemma PushConn(z: Gzip, history: Bytes, more: Bytes, k: Conn, lead: nat, from: Option<nat>, p: nat)
    requires ConnFollows(z, history, k, lead, from, p)
    ensures ConnFollows(z, history + more, k, lead, from, p)
  {
    if from.Some? {
      assert (history + more)[p..k.offset] == history[p..k.offset];
      assert (history + more)[from.value..k.offset] == history[from.value..k.offset];
    }
  }

  lemma PushFollows(z: Gzip, history: Bytes, more: Bytes, v: Viewer, t: Track)
    requires Follows(z, history, v, t)
    ensures Follows(z, history + more, v, t)
  {
    var p := Total(z, v.client) - t.lead;
    PushGot(history, more, t.from, t.parts, t.got, p);
    if v.conn.Some? { PushConn(z, history, more, v.conn.value, t.lead, t.from, p); }
    Together(z, history + more, v, t, p);
  }

  /** A first flush moves the viewer from `p` to where the bytes begin, having got nothing of what lies between. */
  lemma GotMoves(z: Gzip, history: Bytes, c: Client, t: Track, p: nat, f: nat)
    requires StandsAt(z, c, t, p) && GotIs(history, t.from, t.parts, t.got, p) && t.from.None?
    requires p <= f <= |history| && f <= p + t.lead
    ensures StandsAt(z, c, t.(lead := p + t.lead - f, missed := t.missed + f - p), f)
    ensures GotIs(history, Some(f), t.parts, t.got, f)
  {
    assert history[f..f] == [];
  }

  lemma ConnStarts(z: Gzip, history: Bytes, k: Conn, k': Conn, lead: nat, f: nat)
    requires k.since == f + lead && FramesBytes(z, k.net) == FramesBytes(z, k.sent) == []
    requires k'.since == k.since && k'.net == k.net && k'.sent == k.sent && k'.offset == |history|
    requires f <= |history| && StageBytes(z, k'.stage) == history[f..]
    ensures ConnFollows(z, history, k', lead, Some(f), f)
  {
    OnlyRest(FramesBytes(z, k.net), history, f);
    OnlyRest(FramesBytes(z, k.sent), history, f);
  }

  lemma OnlyRest(none: Bytes, history: Bytes, f: nat)
    requires none == [] && f <= |history|
    ensures none + history[f..] == history[f..|history|]
  {
  }

  lemma TakeStages(z: Gzip, r: Ring, v: Viewer)
    requires r.base <= |r.history| && Ready(r, v, Take)
    ensures var k := v.conn.value;
      var v' := ActStep(z, r, v, Take).1;
      && v'.client == v.client && v'.conn.Some?
      && var k' := v'.conn.value;
        && k'.since == k.since && k'.net == k.net && k'.sent == k.sent && k'.offset == |r.history|
        && StageBytes(z, k'.stage) == FlushBytes(z, TakeStep(r, k.offset))
  {
  }

  lemma FirstTake(z: Gzip, r: Ring, v: Viewer, t: Track)
    requires r.base <= |r.history| && CacheOk(z, r) && Ready(r, v, Take) && Kept(r, v, Take)
    requires Follows(z, r.history, v, t) && t.from.None?
    ensures Follows(z, r.history, ActStep(z, r, v, Take).1, TrackStep(z, r, v, t, Take))
  {
    var p := Total(z, v.client) - t.lead;
    var k, v' := v.conn.value, ActStep(z, r, v, Take).1;
    var t' := TrackStep(z, r, v, t, Take);
    var f := t'.from.value;
    ResumeBegins(z, r, k.offset);
    TakeStages(z, r, v);
    GotMoves(z, r.history, v.client, t, p, f);
    ConnStarts(z, r.history, k, v'.conn.value, t'.lead, f);
    Together(z, r.history, v', t', f);
  }

  lemma LaterTake(z: Gzip, r: Ring, v: Viewer, t: Track)
    requires r.base <= |r.history| && CacheOk(z, r) && Ready(r, v, Take) && Kept(r, v, Take)
    requires Follows(z, r.history, v, t) && t.from.Some?
    ensures Follows(z, r.history, ActStep(z, r, v, Take).1, t)
  {
    var p := Total(z, v.client) - t.lead;
    var k, v' := v.conn.value, ActStep(z, r, v, Take).1;
    ResumeBegins(z, r, k.offset);
    TakeStages(z, r, v);
    Extend(FramesBytes(z, k.net), r.history, p, k.offset);
    Extend(FramesBytes(z, k.sent), r.history, t.from.value, k.offset);
    Together(z, r.history, v', t, p);
  }

  /** A frame leaves the stage, or goes by it, without changing what is owed. */
  lemma EmitFollows(z: Gzip, history: Bytes, k: Conn, frame: Bytes, k': Conn, lead: nat, from: Option<nat>, p: nat)
    requires ConnFollows(z, history, k, lead, from, p)
    requires k' == Emit(k, frame).(stage := k'.stage, greeted := k'.greeted)
    requires FrameBytes(z, frame) + StageBytes(z, k'.stage) == StageBytes(z, k.stage)
    requires from.None? ==> k'.stage.Idle?
    ensures ConnFollows(z, history, k', lead, from, p)
  {
    FramesSnoc(z, k.net, frame);
    FramesSnoc(z, k.sent, frame);
    Assoc(FramesBytes(z, k.net), FrameBytes(z, frame), StageBytes(z, k'.stage));
    Assoc(FramesBytes(z, k.sent), FrameBytes(z, frame), StageBytes(z, k'.stage));
  }

  lemma {:induction false} TotalApplied(z: Gzip, c: Client)
    requires c.chain != []
    ensures Total(z, RunTask(z, c)) == Total(z, c)
  {
  }

  lemma TotalDelivered(z: Gzip, c: Client, frame: Bytes)
    ensures Total(z, c.(chain := c.chain + TaskOf(frame))) == Total(z, c) + |FrameBytes(z, frame)|
  {
    TasksBytesAppend(z, c.chain, TaskOf(frame));
    TaskOfBytes(z, frame);
  }

  lemma GotDelivered(history: Bytes, from: Option<nat>, parts: seq<(nat, nat)>, got: Bytes, p: nat, b: Bytes)
    requires GotIs(history, from, parts, got, p) && from.Some? && p + |b| <= |history| && b == history[p..p + |b|]
    ensures GotIs(history, from, parts, got + b, p + |b|)
  {
    assert history[from.value..p] + b == history[from.value..p + |b|];
    Assoc(Pieces(history, parts), history[from.value..p], b);
  }

  lemma ConnDelivered(z: Gzip, history: Bytes, k: Conn, lead: nat, from: Option<nat>, p: nat)
    requires ConnFollows(z, history, k, lead, from, p) && from.Some? && k.net != []
    ensures var b := FrameBytes(z, k.net[0]);
      && p + |b| <= |history| && b == history[p..p + |b|]
      && ConnFollows(z, history, k.(net := k.net[1..]), lead, from, p + |b|)
  {
    var b := FrameBytes(z, k.net[0]);
    FramesHead(z, k.net);
    Assoc(b, FramesBytes(z, k.net[1..]), StageBytes(z, k.stage));
    Handed(history, p, k.offset, b, Owed(z, k.(net := k.net[1..])));
  }

  /** Before its first flush a connection delivers no output. */
  lemma NothingDelivered(z: Gzip, history: Bytes, k: Conn, lead: nat, p: nat)
    requires ConnFollows(z, history, k, lead, None, p) && k.net != []
    ensures FrameBytes(z, k.net[0]) == []
    ensures ConnFollows(z, history, k.(net := k.net[1..]), lead, None, p)
  {
    FramesHead(z, k.net);
  }

  lemma FrameFollows(z: Gzip, history: Bytes, k: Conn, t: Track, p: nat)
    requires ConnFollows(z, history, k, t.lead, t.from, p) && GotIs(history, t.from, t.parts, t.got, p)
    requires t.from.Some? && k.net != []
    ensures var b := FrameBytes(z, k.net[0]);
      && ConnFollows(z, history, k.(net := k.net[1..]), t.lead, t.from, p + |b|)
      && GotIs(history, t.from, t.parts, t.got + b, p + |b|)
  {
    ConnDelivered(z, history, k, t.lead, t.from, p);
    GotDelivered(history, t.from, t.parts, t.got, p, FrameBytes(z, k.net[0]));
  }

  lemma GetsFrame(z: Gzip, history: Bytes, v: Viewer, c: Client, k: Conn, t: Track, p: nat)
    requires FollowsAt(z, history, v, t, p) && t.from.Some? && v.conn == Some(k) && k.net != []
    requires Total(z, c) == Total(z, v.client) + |FrameBytes(z, k.net[0])|
    ensures Follows(z, history, Viewer(c, Some(k.(net := k.net[1..])), v.sound),
                    t.(got := t.got + FrameBytes(z, k.net[0])))
  {
    var b := FrameBytes(z, k.net[0]);
    FrameFollows(z, history, k, t, p);
    Together(z, history, Viewer(c, Some(k.(net := k.net[1..])), v.sound), t.(got := t.got + b), p + |b|);
  }

  lemma GetsNothing(z: Gzip, history: Bytes, v: Viewer, c: Client, k: Conn, t: Track, p: nat)
    requires FollowsAt(z, history, v, t, p) && t.from.None? && v.conn == Some(k) && k.net != []
    requires Total(z, c) == Total(z, v.client) + |FrameBytes(z, k.net[0])|
    ensures Follows(z, history, Viewer(c, Some(k.(net := k.net[1..])), v.sound),
                    t.(got := t.got + FrameBytes(z, k.net[0])))
  {
    NothingDelivered(z, history, k, t.lead, p);
    assert t.got + [] == t.got;
    Together(z, history, Viewer(c, Some(k.(net := k.net[1..])), v.sound), t, p);
  }

  lemma FrameGotten(z: Gzip, history: Bytes, v: Viewer, c: Client, k: Conn, t: Track)
    requires Follows(z, history, v, t) && v.conn == Some(k) && k.net != []
    requires c == v.client.(chain := v.client.chain + TaskOf(k.net[0]))
    ensures Follows(z, history, Viewer(c, Some(k.(net := k.net[1..])), v.sound),
                    t.(got := t.got + FrameBytes(z, k.net[0])))
  {
    var p := Total(z, v.client) - t.lead;
    TotalDelivered(z, v.client, k.net[0]);
    if t.from.Some? { GetsFrame(z, history, v, c, k, t, p); } else { GetsNothing(z, history, v, c, k, t, p); }
  }

  lemma DeliverFollows(z: Gzip, r: Ring, v: Viewer, t: Track)
    requires r.base <= |r.history| && Ready(r, v, Deliver) && Follows(z, r.history, v, t)
    ensures Follows(z, r.history, ActStep(z, r, v, Deliver).1, TrackStep(z, r, v, t, Deliver))
  {
    var k := v.conn.value;
    FrameGotten(z, r.history, v, v.client.(chain := v.client.chain + TaskOf(k.net[0])), k, t);
  }

  lemma Handed(h: Bytes, p: nat, to: nat, b: Bytes, rest: Bytes)
    requires p <= to <= |h| && b + rest == h[p..to]
    ensures p + |b| <= to && b == h[p..p + |b|] && rest == h[p + |b|..to]
  {
    assert |b + rest| == to - p;
    assert b == (b + rest)[..|b|] && rest == (b + rest)[|b|..];
  }

  /** When a connection is over, its stretch is a finished part. */
  lemma GotClosed(history: Bytes, f: nat, parts: seq<(nat, nat)>, got: Bytes, p: nat)
    requires GotIs(history, Some(f), parts, got, p)
    ensures GotIs(history, None, parts + [(f, p)], got, p)
  {
    PiecesSnoc(history, parts, f, p);
  }

  lemma NewConnFollows(z: Gzip, history: Bytes, since: nat, lead: nat, p: nat)
    requires since == p + lead
    ensures ConnFollows(z, history, Conn(since, since, false, Idle, [], []), lead, None, p)
  {
  }

  lemma ReconnectFollows(z: Gzip, r: Ring, v: Viewer, t: Track)
    requires r.base <= |r.history| && Ready(r, v, Reconnect) && Kept(r, v, Reconnect) && Follows(z, r.history, v, t)
    ensures Follows(z, r.history, ActStep(z, r, v, Reconnect).1, TrackStep(z, r, v, t, Reconnect))
  {
    var p := Total(z, v.client) - t.lead;
    if t.from.Some? { GotClosed(r.history, t.from.value, t.parts, t.got, p); }
    var t' := TrackStep(z, r, v, t, Reconnect);
    NewConnFollows(z, r.history, v.client.ringOffset, t'.lead, p);
    Together(z, r.history, ActStep(z, r, v, Reconnect).1, t', p);
  }

  lemma PublishFollows(z: Gzip, history: Bytes, k: Conn, lead: nat, from: Option<nat>, p: nat)
    requires z.Faithful() && ConnFollows(z, history, k, lead, from, p) && k.stage.Encoding?
    ensures ConnFollows(z, history, k.(stage := Sending(EncodeOut(z, k.stage.chunk))), lead, from, p)
  {
    EncodedCarriesChunk(z, k.stage.chunk);
  }

  lemma SilentFrame(z: Gzip, tag: Byte, payload: Bytes)
    requires tag == TAG_PREVIEW || tag == TAG_META
    ensures FrameBytes(z, EncodeFrame(tag, payload)) == []
  {
  }

  /** What the connection sends changes neither where the viewer stands nor what it got. */
  lemma ConnOnly(z: Gzip, history: Bytes, v: Viewer, v': Viewer, t: Track)
    requires Follows(z, history, v, t) && v'.client == v.client && v'.conn.Some?
    requires ConnFollows(z, history, v'.conn.value, t.lead, t.from, Total(z, v.client) - t.lead)
    ensures Follows(z, history, v', t)
  {
    Together(z, history, v', t, Total(z, v.client) - t.lead);
  }

  lemma PublishKeeps(z: Gzip, r: Ring, v: Viewer, t: Track)
    requires z.Faithful() && r.base <= |r.history| && Ready(r, v, Publish) && Follows(z, r.history, v, t)
    ensures Follows(z, r.history, ActStep(z, r, v, Publish).1, t)
  {
    PublishFollows(z, r.history, v.conn.value, t.lead, t.from, Total(z, v.client) - t.lead);
    ConnOnly(z, r.history, v, ActStep(z, r, v, Publish).1, t);
  }

  lemma SendFollows(z: Gzip, history: Bytes, k: Conn, lead: nat, from: Option<nat>, p: nat)
    requires ConnFollows(z, history, k, lead, from, p) && k.stage.Sending?
    ensures ConnFollows(z, history, Emit(k, k.stage.frame).(stage := Idle), lead, from, p)
  {
    EmitFollows(z, history, k, k.stage.frame, Emit(k, k.stage.frame).(stage := Idle), lead, from, p);
  }

  lemma SendKeeps(z: Gzip, r: Ring, v: Viewer, t: Track)
    requires r.base <= |r.history| && Ready(r, v, Send) && Follows(z, r.history, v, t)
    ensures Follows(z, r.history, ActStep(z, r, v, Send).1, t)
  {
    SendFollows(z, r.history, v.conn.value, t.lead, t.from, Total(z, v.client) - t.lead);
    ConnOnly(z, r.history, v, ActStep(z, r, v, Send).1, t);
  }

  /** A frame that carries no output. */
  lemma SilentFollows(z: Gzip, history: Bytes, k: Conn, frame: Bytes, greeted: bool, lead: nat, from: Option<nat>,
                      p: nat)
    requires ConnFollows(z, history, k, lead, from, p) && FrameBytes(z, frame) == []
    ensures ConnFollows(z, history, Emit(k, frame).(greeted := greeted), lead, from, p)
  {
    EmitFollows(z, history, k, frame, Emit(k, frame).(greeted := greeted), lead, from, p);
  }

  lemma SilentKeeps(z: Gzip, history: Bytes, v: Viewer, frame: Bytes, greeted: bool, t: Track)
    requires Follows(z, history, v, t) && v.conn.Some? && FrameBytes(z, frame) == []
    ensures Follows(z, history, v.(conn := Some(Emit(v.conn.value, frame).(greeted := greeted))), t)
  {
    SilentFollows(z, history, v.conn.value, frame, greeted, t.lead, t.from, Total(z, v.client) - t.lead);
    ConnOnly(z, history, v, v.(conn := Some(Emit(v.conn.value, frame).(greeted := greeted))), t);
  }

  lemma PreviewKeeps(z: Gzip, r: Ring, v: Viewer, t: Track, text: Bytes)
    requires r.base <= |r.history| && Ready(r, v, SendPreview(text)) && Follows(z, r.history, v, t)
    ensures Follows(z, r.history, ActStep(z, r, v, SendPreview(text)).1, t)
  {
    SilentFrame(z, TAG_PREVIEW, text);
    SilentKeeps(z, r.history, v, EncodeFrame(TAG_PREVIEW, text), true, t);
  }

  lemma MetaKeeps(z: Gzip, r: Ring, v: Viewer, t: Track, payload: Bytes)
    requires r.base <= |r.history| && Ready(r, v, SendMeta(payload)) && Follows(z, r.history, v, t)
    ensures Follows(z, r.history, ActStep(z, r, v, SendMeta(payload)).1, t)
  {
    SilentFrame(z, TAG_META, payload);
    SilentKeeps(z, r.history, v, EncodeFrame(TAG_META, payload), v.conn.value.greeted, t);
  }

  /** What the page does by itself changes neither its total nor its connection. */
  lemma ClientOnly(z: Gzip, history: Bytes, v: Viewer, v': Viewer, t: Track)
    requires Follows(z, history, v, t) && v'.conn == v.conn && Total(z, v'.client) == Total(z, v.client)
    ensures Follows(z, history, v', t)
  {
  }

  lemma PageFollows(z: Gzip, r: Ring, v: Viewer, t: Track, a: Action)
    requires r.base <= |r.history| && Ready(r, v, a) && Follows(z, r.history, v, t)
    requires a.Run? || a.Pause? || a.Resume? || a.Flush?
    ensures Follows(z, r.history, ActStep(z, r, v, a).1, t)
  {
    if a.Run? { TotalApplied(z, v.client); }
    ClientOnly(z, r.history, v, ActStep(z, r, v, a).1, t);
  }

  lemma DropFollows(z: Gzip, history: Bytes, v: Viewer, t: Track)
    requires Follows(z, history, v, t)
    ensures Follows(z, history, v.(conn := None), t)
  {
    Together(z, history, v.(conn := None), t, Total(z, v.client) - t.lead);
  }

  lemma ActFollows(z: Gzip, r: Ring, v: Viewer, t: Track, a: Action)
    requires z.Faithful() && r.base <= |r.history| && CacheOk(z, r) && StageOk(r, v)
    requires Ready(r, v, a) && Kept(r, v, a) && Follows(z, r.history, v, t)
    ensures Follows(z, r.history, ActStep(z, r, v, a).1, TrackStep(z, r, v, t, a))
  {
    match a
    case Take => if t.from.Some? { LaterTake(z, r, v, t); } else { FirstTake(z, r, v, t); }
    case Deliver => DeliverFollows(z, r, v, t);
    case Drop => DropFollows(z, r.history, v, t);
    case Reconnect => ReconnectFollows(z, r, v, t);
    case Publish => PublishKeeps(z, r, v, t);
    case Send => SendKeeps(z, r, v, t);
    case SendPreview(text) => PreviewKeeps(z, r, v, t, text);
    case SendMeta(payload) => MetaKeeps(z, r, v, t, payload);
    case _ => PageFollows(z, r, v, t, a);
  }

  // ------------------------------------------------------------ runs

  ghost predicate AsksOf(s: System, i: nat, e: Event)
    requires Enabled(s, e)
  {
    e.Act? && e.viewer == i ==> Kept(s.ring, s.viewers[i], e.action)
  }

  function TrackEvent(z: Gzip, s: System, i: nat, t: Track, e: Event): Track
    requires Enabled(s, e) && i < |s.viewers| && t.lead <= Total(z, s.viewers[i].client)
  {
    if e.Act? && e.viewer == i then TrackStep(z, s.ring, s.viewers[i], t, e.action) else t
  }

  lemma EventFollows(z: Gzip, s: System, i: nat, t: Track, e: Event)
    requires z.Faithful() && Inv(z, s) && i < |s.viewers| && Enabled(s, e) && AsksOf(s, i, e)
    requires Follows(z, s.ring.history, s.viewers[i], t)
    ensures i < |Step(z, s, e).viewers|
    ensures Follows(z, Step(z, s, e).ring.history, Step(z, s, e).viewers[i], TrackEvent(z, s, i, t, e))
  {
    match e
    case Push(data, _, _) => PushFollows(z, s.ring.history, data, s.viewers[i], t);
    case Act(j, a) =>
      ActOk(z, s.ring, s.viewers[j], a);
      if j == i { ActFollows(z, s.ring, s.viewers[i], t, a); }
  }

  /** No step makes the viewer miss what it does not stop running ahead by. */
  lemma EventConserves(z: Gzip, s: System, i: nat, t: Track, e: Event)
    requires i < |s.viewers| && Enabled(s, e) && Follows(z, s.ring.history, s.viewers[i], t)
    ensures var t' := TrackEvent(z, s, i, t, e); t'.missed + t'.lead == t.missed + t.lead && t.missed <= t'.missed
  {
  }

  /** A run of the new daemon, with the account of viewer `i` and what it asks of that viewer's steps. */
  ghost predicate RunsFor(z: Gzip, s: System, i: nat, t: Track, events: seq<Event>, u: System, end: Track)
    decreases |events|
  {
    if events == [] then s == u && t == end
    else
      var e := events[0];
      && Enabled(s, e) && i < |s.viewers| && t.lead <= Total(z, s.viewers[i].client) && AsksOf(s, i, e)
      && RunsFor(z, Step(z, s, e), i, TrackEvent(z, s, i, t, e), events[1..], u, end)
  }

  lemma {:induction false} RunFollows(z: Gzip, s: System, i: nat, t: Track, events: seq<Event>, u: System, end: Track)
    requires z.Faithful() && Inv(z, s) && i < |s.viewers| && Follows(z, s.ring.history, s.viewers[i], t)
    requires RunsFor(z, s, i, t, events, u, end)
    ensures Inv(z, u) && i < |u.viewers| && Follows(z, u.ring.history, u.viewers[i], end)
    ensures end.missed + end.lead == t.missed + t.lead && t.missed <= end.missed
    decreases |events|
  {
    if events != [] {
      var e := events[0];
      StepOk(z, s, e);
      EventFollows(z, s, i, t, e);
      EventConserves(z, s, i, t, e);
      RunFollows(z, Step(z, s, e), i, TrackEvent(z, s, i, t, e), events[1..], u, end);
    }
  }

  lemma RestartFollows(z: Gzip, s: System, i: nat)
    requires i < |s.viewers|
    ensures Inv(z, Restarted(s))
    ensures Follows(z, [], Restarted(s).viewers[i], Fresh(z, s.viewers[i].client))
  {
  }

  lemma RestartRunFollows(z: Gzip, s: System, i: nat, events: seq<Event>, u: System, end: Track)
    requires z.Faithful() && i < |s.viewers|
    requires RunsFor(z, Restarted(s), i, Fresh(z, s.viewers[i].client), events, u, end)
    ensures i < |u.viewers| && Follows(z, u.ring.history, u.viewers[i], end)
    ensures end.missed + end.lead == Total(z, s.viewers[i].client)
  {
    RestartFollows(z, s, i);
    RunFollows(z, Restarted(s), i, Fresh(z, s.viewers[i].client), events, u, end);
  }

  /**
    Conservation: whatever the new daemon's run, a page has been handed of the new history, in order and once each,
    all but `missed` of the bytes before where it stands, and it misses exactly what its offset stopped running ahead
    by. So it never misses more than the offset it arrived with, and nothing more once the two have met.
    */
  lemma MissedIsLead(z: Gzip, s: System, i: nat, events: seq<Event>, u: System, end: Track)
    requires z.Faithful() && i < |s.viewers|
    requires RunsFor(z, Restarted(s), i, Fresh(z, s.viewers[i].client), events, u, end)
    ensures i < |u.viewers| && end.lead <= Total(z, u.viewers[i].client)
    ensures var p := Total(z, u.viewers[i].client) - end.lead;
      && GotIs(u.ring.history, end.from, end.parts, end.got, p) && |end.got| + end.missed == p
      && end.missed + end.lead == Total(z, s.viewers[i].client)
  {
    RestartRunFollows(z, s, i, events, u, end);
  }

  /**
    A connection that has flushed has sent the history from `from` to its offset, and the page's offset, with what
    it has yet to apply and to be given, counts exactly as many bytes from `since`.
    */
  lemma ConnectionCounts(z: Gzip, s: System, i: nat, events: seq<Event>, u: System, end: Track)
    requires z.Faithful() && i < |s.viewers|
    requires RunsFor(z, Restarted(s), i, Fresh(z, s.viewers[i].client), events, u, end)
    requires end.from.Some? && i < |u.viewers| && u.viewers[i].conn.Some?
    ensures var v := u.viewers[i];
      var k := v.conn.value;
      var f := end.from.value;
      && f <= k.offset <= |u.ring.history| && f <= k.since
      && Sent(z, k) == u.ring.history[f..k.offset]
      && Total(z, v.client) + |Owed(z, k)| == k.since + k.offset - f
  {
    RestartRunFollows(z, s, i, events, u, end);
  }

  /** A first flush misses what was pushed since the viewer last stood there, as far as its offset runs ahead. */
  lemma ReconnectMisses(z: Gzip, r: Ring, v: Viewer, t: Track)
    requires r.base <= |r.history| && Ready(r, v, Take) && Follows(z, r.history, v, t) && t.from.None?
    ensures var t' := TrackStep(z, r, v, t, Take);
      var meanwhile := |r.history| - (Total(z, v.client) - t.lead);
      && t'.missed - t.missed == (if t.lead < meanwhile then t.lead else meanwhile)
      && t'.from == Some(Begin(v.conn.value.since, |r.history|))
  {
  }
}
