/** The live terminal stream: server pumps over one ring, viewers that drop, pause, preview and resume. */
module LiveStream {
  import opened Text
  import opened ByteStrings
  import opened PtyRings

  const TAG_OUT: Byte := 0x02
  const TAG_META: Byte := 0x03
  const TAG_OUT_GZ: Byte := 0x0A
  const TAG_PREVIEW: Byte := 0x0C
  const COMPRESS_MIN_BYTES: nat := 256
  const OFFLOAD_MIN_BYTES: nat := 64 * 1024

  /** The gzip library, by its contract: inflating undoes compressing. */
  datatype Gzip = Gzip(pack: Bytes -> Option<Bytes>, unpack: Bytes -> Option<Bytes>) {
    ghost predicate Faithful() {
      forall b :: pack(b).Some? ==> unpack(pack(b).value) == Some(b)
    }
  }

  // ------------------------------------------------------------ frames

  function EncodeFrame(tag: Byte, payload: Bytes): Bytes {
    [tag] + payload
  }

  /** An output frame: compressed when that is large enough to try and actually smaller. */
  function EncodeOut(z: Gzip, chunk: Bytes): Bytes {
    if |chunk| >= COMPRESS_MIN_BYTES && z.pack(chunk).Some? && |z.pack(chunk).value| < |chunk| then
      EncodeFrame(TAG_OUT_GZ, z.pack(chunk).value)
    else EncodeFrame(TAG_OUT, chunk)
  }

  /** What the viewer queues for a message. */
  datatype Task = Write(bytes: Bytes) | Inflate(bytes: Bytes) | Paint(bytes: Bytes)

  function OnMessage(frame: Bytes): Option<Task> {
    if frame == [] then None
    else if frame[0] == TAG_OUT then Some(Write(frame[1..]))
    else if frame[0] == TAG_OUT_GZ then Some(Inflate(frame[1..]))
    else if frame[0] == TAG_PREVIEW then Some(Paint(frame[1..]))
    else None
  }

  function TaskBytes(z: Gzip, t: Task): Bytes {
    match t
    case Write(b) => b
    case Inflate(b) => (match z.unpack(b) case Some(raw) => raw case None => [])
    case Paint(_) => []
  }

  /** The terminal output a frame carries. */
  function FrameBytes(z: Gzip, frame: Bytes): Bytes {
    match OnMessage(frame) case Some(t) => TaskBytes(z, t) case None => []
  }

  /** Raw or compressed, an output frame carries its chunk. */
  lemma EncodedCarriesChunk(z: Gzip, chunk: Bytes)
    requires z.Faithful()
    ensures FrameBytes(z, EncodeOut(z, chunk)) == chunk
    ensures OnMessage(EncodeOut(z, chunk)).Some? && !OnMessage(EncodeOut(z, chunk)).value.Paint?
  {
    var f := EncodeOut(z, chunk);
    assert f[1..] == chunk || (z.pack(chunk).Some? && f[1..] == z.pack(chunk).value);
  }

  function FramesBytes(z: Gzip, frames: seq<Bytes>): Bytes {
    if frames == [] then [] else FramesBytes(z, frames[..|frames| - 1]) + FrameBytes(z, frames[|frames| - 1])
  }

  function TasksBytes(z: Gzip, tasks: seq<Task>): Bytes {
    if tasks == [] then [] else TaskBytes(z, tasks[0]) + TasksBytes(z, tasks[1..])
  }

  function TaskOf(frame: Bytes): seq<Task> {
    match OnMessage(frame) case Some(t) => [t] case None => []
  }

  /** The tasks a run of messages queues. */
  function Tasks(frames: seq<Bytes>): seq<Task> {
    if frames == [] then [] else TaskOf(frames[0]) + Tasks(frames[1..])
  }

  // ------------------------------------------------------------ the server's pump

  /** One flush decision, taken under the ring's lock. */
  datatype OutFlush = Nothing | Shared(frame: Bytes) | Fresh(from: nat, to: nat, chunk: Bytes)

  function TakeStep(r: Ring, offset: nat): OutFlush
    requires r.base <= |r.history|
  {
    var total := |r.history|;
    if total == offset then Nothing
    else if r.cache.Some? && r.cache.value.from == offset && r.cache.value.to == total then Shared(r.cache.value.frame)
    else Fresh(offset, total, Tail(r.history, r.base, offset))
  }

  function PublishStep(r: Ring, from: nat, to: nat, frame: Bytes): Ring {
    if |frame| <= FRAME_CACHE_MAX then r.(cache := Some(CachedFrame(from, to, frame))) else r
  }

  /** The part of a connection's pump that owns the ring offset. */
  class Pump {
    const z: Gzip
    var ringOffset: nat

    constructor (z: Gzip, since: nat)
      ensures this.z == z && ringOffset == since
    {
      this.z, ringOffset := z, since;
    }

    /** Under the lock: decide what to flush, and claim it by advancing the offset. */
    method Take(r: PtyRing) returns (f: OutFlush)
      requires r.Valid()
      modifies this
      ensures f == TakeStep(r.View(), old(ringOffset)) && ringOffset == |r.history|
    {
      var total := r.TotalLen();
      if total == ringOffset { return Nothing; }
      var cached := r.CachedFrameFor(ringOffset, total);
      if cached.Some? {
        ringOffset := total;
        return Shared(cached.value);
      }
      var chunk := r.Since(ringOffset);
      f := Fresh(ringOffset, total, chunk);
      ringOffset := total;
    }

    /** With the lock retaken: publish a fresh frame for sibling viewers, and hand over what to send. */
    method Publish(r: PtyRing, f: OutFlush) returns (frame: Option<Bytes>)
      requires r.Valid()
      modifies r`frameCache
      ensures r.Valid()
      ensures f.Shared? ==> frame == Some(f.frame) && r.View() == old(r.View())
      ensures f.Fresh? && f.chunk != [] ==>
        var encoded := EncodeOut(z, f.chunk);
        frame == Some(encoded) && r.View() == PublishStep(old(r.View()), f.from, f.to, encoded)
      ensures f.Nothing? || (f.Fresh? && f.chunk == []) ==> frame.None? && r.View() == old(r.View())
    {
      match f
      case Shared(shared) => return Some(shared);
      case Nothing => return None;
      case Fresh(from, to, chunk) =>
        if chunk == [] { return None; }
        var encoded := EncodeOut(z, chunk);
        r.StoreFrame(from, to, encoded);
        return Some(encoded);
    }
  }

  // ------------------------------------------------------------ the viewer

  /** A terminal cell: authoritative output, or a temporary preview of it. */
  datatype Cell = Output(byte: Byte) | Preview(byte: Byte)

  function Outputs(b: Bytes): seq<Cell> {
    seq(|b|, i requires 0 <= i < |b| => Output(b[i]))
  }

  function Previews(b: Bytes): seq<Cell> {
    seq(|b|, i requires 0 <= i < |b| => Preview(b[i]))
  }

  /** The viewer's state: what it wrote, what it queued, and where a resume would start. */
  datatype Client = Client(ringOffset: nat, term: seq<Cell>, pending: Bytes, previewReset: bool, paused: bool,
                           chain: seq<Task>)

  const NEW_CLIENT := Client(0, [], [], false, false, [])

  function HandleOut(c: Client, b: Bytes): Client {
    var d := if c.previewReset then c.(previewReset := false, term := []) else c;
    if c.paused then d.(ringOffset := d.ringOffset + |b|, pending := d.pending + b)
    else d.(ringOffset := d.ringOffset + |b|, term := d.term + Outputs(d.pending) + Outputs(b), pending := [])
  }

  function PaintPreview(c: Client, text: Bytes): Client {
    c.(term := c.term + Previews(text), previewReset := true)
  }

  function RunTask(z: Gzip, c: Client): Client
    requires c.chain != []
  {
    var d := c.(chain := c.chain[1..]);
    match c.chain[0]
    case Write(b) => HandleOut(d, b)
    case Inflate(b) => (match z.unpack(b) case Some(raw) => HandleOut(d, raw) case None => d)
    case Paint(text) => PaintPreview(d, text)
  }

  function FlushPending(c: Client): Client {
    if c.pending != [] && !c.paused then c.(term := c.term + Outputs(c.pending), pending := []) else c
  }

  /** The page's stream variables. */
  class Page {
    var ringOffset: nat
    var term: seq<Cell>
    var pendingBytesWhileSelecting: Bytes
    var pendingPreviewReset: bool
    var paused: bool
    var outChain: seq<Task>

    function Contents(): Client
      reads this
    {
      Client(ringOffset, term, pendingBytesWhileSelecting, pendingPreviewReset, paused, outChain)
    }

    constructor ()
      ensures Contents() == NEW_CLIENT
    {
      ringOffset, term, pendingBytesWhileSelecting := 0, [], [];
      pendingPreviewReset, paused, outChain := false, false, [];
    }

    method Out(bytes: Bytes)
      modifies this
      ensures Contents() == HandleOut(old(Contents()), bytes)
    {
      if pendingPreviewReset {
        pendingPreviewReset := false;
        term := [];
      }
      ringOffset := ringOffset + |bytes|;
      if paused {
        pendingBytesWhileSelecting := pendingBytesWhileSelecting + bytes;
        return;
      }
      // Writing nothing is skipped in the page; it would change nothing here.
      term := term + Outputs(pendingBytesWhileSelecting);
      pendingBytesWhileSelecting := [];
      term := term + Outputs(bytes);
    }

    method RunNext(z: Gzip)
      requires outChain != []
      modifies this
      ensures Contents() == RunTask(z, old(Contents()))
    {
      var t := outChain[0];
      outChain := outChain[1..];
      match t
      case Write(b) => Out(b);
      case Inflate(b) =>
        var raw := z.unpack(b);
        if raw.Some? { Out(raw.value); }
      case Paint(text) =>
        term := term + Previews(text);
        pendingPreviewReset := true;
    }

    method Flush()
      modifies this
      ensures Contents() == FlushPending(old(Contents()))
    {
      if pendingBytesWhileSelecting != [] && !paused {
        term := term + Outputs(pendingBytesWhileSelecting);
        pendingBytesWhileSelecting := [];
      }
    }
  }

  // ------------------------------------------------------------ the system

  /** Between a flush decision and its send, the pump holds the chunk or the frame. */
  datatype Stage = Idle | Encoding(from: nat, to: nat, chunk: Bytes) | Sending(frame: Bytes)

  /** One connection: its pump, the frames on the wire, and every frame it ever sent. */
  datatype Conn = Conn(since: nat, offset: nat, greeted: bool, stage: Stage, net: seq<Bytes>, sent: seq<Bytes>)

  /**
    One viewer. `sound` records the two assumptions on its own run so far: the ring's floor was never
    above the offset it flushed from, and it never reconnected with a received frame still unapplied.
    */
  datatype Viewer = Viewer(client: Client, conn: Option<Conn>, sound: bool)

  datatype System = System(ring: Ring, viewers: seq<Viewer>)

  datatype Action =
    | Take
    | Publish
    | Send
    | SendPreview(text: Bytes)
    | SendMeta(payload: Bytes)
    | Deliver
    | Run
    | Pause
    | Resume
    | Flush
    | Drop
    | Reconnect

  datatype Event =
    | Push(data: Bytes, base: nat, keepCache: bool)
    | Act(viewer: nat, action: Action)

  predicate Ready(r: Ring, v: Viewer, a: Action) {
    match a
    case Take => v.conn.Some? && v.conn.value.stage.Idle?
    case Publish => v.conn.Some? && v.conn.value.stage.Encoding?
    case Send => v.conn.Some? && v.conn.value.stage.Sending?
    case SendPreview(_) =>
      v.conn.Some? && !v.conn.value.greeted && v.conn.value.since == 0
      && r.base <= |r.history| && |Tail(r.history, r.base, 0)| >= OFFLOAD_MIN_BYTES
    case SendMeta(_) => v.conn.Some? && v.conn.value.stage.Idle?
    case Deliver => v.conn.Some? && v.conn.value.net != []
    case Run => v.client.chain != []
    case Drop => v.conn.Some?
    case Reconnect => v.conn.None?
    case _ => true
  }

  /** The pump's staged frame goes on the wire. */
  function Emit(c: Conn, frame: Bytes): Conn {
    c.(net := c.net + [frame], sent := c.sent + [frame])
  }

  function ActStep(z: Gzip, r: Ring, v: Viewer, a: Action): (Ring, Viewer)
    requires r.base <= |r.history| && Ready(r, v, a)
  {
    match a
    case Take =>
      var c := v.conn.value;
      var f := TakeStep(r, c.offset);
      var stage := match f
        case Nothing => Idle
        case Shared(frame) => Sending(frame)
        case Fresh(from, to, chunk) => if chunk == [] then Idle else Encoding(from, to, chunk);
      (r, v.(conn := Some(c.(offset := |r.history|, greeted := true, stage := stage)),
             sound := v.sound && (f.Nothing? || r.base <= c.offset)))
    case Publish =>
      var c := v.conn.value;
      var frame := EncodeOut(z, c.stage.chunk);
      (PublishStep(r, c.stage.from, c.stage.to, frame), v.(conn := Some(c.(stage := Sending(frame)))))
    case Send =>
      var c := v.conn.value;
      (r, v.(conn := Some(Emit(c, c.stage.frame).(stage := Idle))))
    case SendPreview(text) =>
      (r, v.(conn := Some(Emit(v.conn.value, EncodeFrame(TAG_PREVIEW, text)).(greeted := true))))
    case SendMeta(payload) => (r, v.(conn := Some(Emit(v.conn.value, EncodeFrame(TAG_META, payload)))))
    case Deliver =>
      var c := v.conn.value;
      (r, v.(conn := Some(c.(net := c.net[1..])),
             client := v.client.(chain := v.client.chain + TaskOf(c.net[0]))))
    case Run => (r, v.(client := RunTask(z, v.client)))
    case Pause => (r, v.(client := v.client.(paused := true)))
    case Resume => (r, v.(client := v.client.(paused := false)))
    case Flush => (r, v.(client := FlushPending(v.client)))
    case Drop => (r, v.(conn := None))
    case Reconnect =>
      var since := v.client.ringOffset;
      (r, v.(conn := Some(Conn(since, since, false, Idle, [], [])), sound := v.sound && v.client.chain == []))
  }

  predicate Enabled(s: System, e: Event) {
    match e
    case Push(data, base, keepCache) =>
      s.ring.base <= base <= |s.ring.history| + |data| && (data == [] ==> base == s.ring.base && !keepCache)
    case Act(i, a) => i < |s.viewers| && s.ring.base <= |s.ring.history| && Ready(s.ring, s.viewers[i], a)
  }

  function Step(z: Gzip, s: System, e: Event): System
    requires Enabled(s, e)
  {
    match e
    case Push(data, base, keepCache) =>
      s.(ring := Ring(s.ring.history + data, base, if keepCache then s.ring.cache else None))
    case Act(i, a) =>
      var (ring, viewer) := ActStep(z, s.ring, s.viewers[i], a);
      System(ring, s.viewers[i := viewer])
  }

  /** Any ring push is a push of the system. */
  lemma RingPushIsEvent(r: Ring, data: Bytes, r': Ring, viewers: seq<Viewer>, z: Gzip)
    requires PushedTo(r, data, r')
    ensures exists e: Event ::
      e.Push? && Enabled(System(r, viewers), e) && Step(z, System(r, viewers), e) == System(r', viewers)
  {
    var e := Push(data, r'.base, data != [] && r'.cache == r.cache);
    assert Step(z, System(r, viewers), e) == System(r', viewers);
  }
}
