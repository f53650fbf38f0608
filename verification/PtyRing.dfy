/** The per-tab byte ring: an append-only history of which a bounded tail is retained, cold bytes compressed. */
module PtyRings {
  import opened Text
  import opened ByteStrings

  const HOT_MAX: nat := 256 * 1024
  const CHUNK_RAW: nat := 128 * 1024
  const FRAME_CACHE_MAX: nat := 512 * 1024

  /** A lossless compressor: the foreign library, by its contract. */
  datatype Deflate = Deflate(pack: Bytes -> Bytes, unpack: Bytes -> Bytes) {
    ghost predicate Lossless() {
      forall b :: unpack(pack(b)) == b
    }
  }

  datatype ColdChunk = ColdChunk(rawLen: nat, deflated: Bytes)

  /** An encoded frame and the byte range it covers. */
  datatype CachedFrame = CachedFrame(from: nat, to: nat, frame: Bytes)

  /** A ring as its readers see it: the whole history, the floor below which it is gone, and the cached frame. */
  datatype Ring = Ring(history: Bytes, base: nat, cache: Option<CachedFrame>) {
    ghost predicate Valid() {
      base <= |history|
    }
  }

  /** What one push may do: append, raise the floor, keep or drop the cached frame; an empty push only drops it. */
  ghost predicate PushedTo(r: Ring, data: Bytes, r': Ring) {
    && r'.history == r.history + data
    && r.base <= r'.base <= |r'.history|
    && (r'.cache == r.cache || r'.cache.None?)
    && (data == [] ==> r'.base == r.base && r'.cache.None?)
  }

  function ColdBytes(d: Deflate, cold: seq<ColdChunk>): Bytes {
    if cold == [] then [] else d.unpack(cold[0].deflated) + ColdBytes(d, cold[1..])
  }

  lemma {:induction false} ColdSnoc(d: Deflate, cold: seq<ColdChunk>, c: ColdChunk)
    ensures ColdBytes(d, cold + [c]) == ColdBytes(d, cold) + d.unpack(c.deflated)
  {
    if cold == [] {
      assert cold + [c] == [c];
    } else {
      assert (cold + [c])[1..] == cold[1..] + [c];
      ColdSnoc(d, cold[1..], c);
    }
  }

  /** Appending to the hot part appends to the history. */
  lemma StoredAppend(cold: Bytes, hot: Bytes, history: Bytes, base: nat, data: Bytes)
    requires base <= |history| && cold + hot == history[base..]
    ensures cold + (hot + data) == (history + data)[base..]
  {
    Assoc(cold, hot, data);
    assert (history + data)[base..] == history[base..] + data;
  }

  /** What a ring with the given history and floor answers from `offset`. */
  function Tail(history: Bytes, base: nat, offset: nat): Bytes
    requires base <= |history|
  {
    if offset >= |history| then [] else history[if offset < base then base else offset..]
  }

  /** The answer, by the cold and hot parts the history is stored in. */
  lemma StoredTail(cold: Bytes, coldRaw: nat, hot: Bytes, history: Bytes, base: nat, offset: nat, start: nat)
    requires base <= |history| && cold + hot == history[base..] && |cold| == coldRaw
    requires offset < |history| && start == if offset < base then base else offset
    ensures |history| == base + coldRaw + |hot|
    ensures start >= base + coldRaw ==> Tail(history, base, offset) == hot[start - (base + coldRaw)..]
    ensures start < base + coldRaw ==> Tail(history, base, offset) == cold[start - base..] + hot
  {
    assert |cold + hot| == |history| - base;
    assert Tail(history, base, offset) == history[base..][start - base..];
    if start < base + coldRaw {
      assert (cold + hot)[start - base..] == cold[start - base..] + hot;
    } else {
      assert (cold + hot)[start - base..] == hot[start - (base + coldRaw)..];
    }
  }

  /** How far below its capacity a ring may fall when it evicts: whole cold chunks go at once. */
  function Slack(cap: nat): nat {
    if cap <= HOT_MAX * 2 then 0 else CHUNK_RAW - 1
  }

  class PtyRing {
    const deflate: Deflate
    const cap: nat
    var hot: Bytes
    var cold: seq<ColdChunk>
    var coldRaw: nat
    var baseOffset: nat
    var viewers: nat
    var frameCache: Option<CachedFrame>
    /** How many times the waiters were notified. */
    var notifications: nat
    /** Everything ever pushed. */
    ghost var history: Bytes

    ghost predicate Stored()
      reads this
    {
      && deflate.Lossless()
      && cap >= 1
      && (forall i :: 0 <= i < |cold| ==>
            cold[i].rawLen == CHUNK_RAW && |deflate.unpack(cold[i].deflated)| == CHUNK_RAW)
      && coldRaw == |cold| * CHUNK_RAW == |ColdBytes(deflate, cold)|
      && (cap <= HOT_MAX * 2 ==> cold == [])
      && baseOffset + coldRaw + |hot| == |history|
      && ColdBytes(deflate, cold) + hot == history[baseOffset..]
    }

    /** The retained window: at most the capacity, and all of it but the slack once anything was dropped. */
    ghost predicate Valid()
      reads this
    {
      && Stored()
      && (cap > HOT_MAX * 2 ==> |hot| <= HOT_MAX)
      && |history| - baseOffset <= cap
      && (baseOffset > 0 ==> |history| - baseOffset + Slack(cap) >= cap)
    }

    constructor (deflate: Deflate, capacity: nat)
      requires deflate.Lossless()
      ensures Valid() && history == [] && baseOffset == 0 && cap == (if capacity < 1 then 1 else capacity)
      ensures frameCache.None? && viewers == 0 && notifications == 0
    {
      this.deflate := deflate;
      cap := if capacity < 1 then 1 else capacity;
      hot, cold, coldRaw, baseOffset, viewers, frameCache, notifications := [], [], 0, 0, 0, None, 0;
      history := [];
    }

    ghost function View(): Ring
      reads this
    {
      Ring(history, baseOffset, frameCache)
    }

    function TotalLen(): (n: nat)
      requires Stored()
      reads this
      ensures n == |history|
    {
      baseOffset + coldRaw + |hot|
    }

    /** Move the oldest plain bytes into cold chunks until the plain tail is short. */
    method Compact()
      requires Stored()
      modifies this`hot, this`cold, this`coldRaw
      ensures Stored()
      ensures cap > HOT_MAX * 2 ==> |hot| <= HOT_MAX
    {
      if cap <= HOT_MAX * 2 { return; }
      while |hot| > HOT_MAX
        invariant Stored()
        decreases |hot|
      {
        var raw := hot[..CHUNK_RAW];
        var c := ColdChunk(|raw|, deflate.pack(raw));
        ColdSnoc(deflate, cold, c);
        assert hot == raw + hot[CHUNK_RAW..];
        assert (ColdBytes(deflate, cold) + raw) + hot[CHUNK_RAW..] == ColdBytes(deflate, cold) + hot;
        cold, coldRaw, hot := cold + [c], coldRaw + |raw|, hot[CHUNK_RAW..];
      }
    }

    /** Drop the oldest bytes until the window fits the capacity. */
    method EvictOverCap()
      requires Stored() && (cap > HOT_MAX * 2 ==> |hot| <= HOT_MAX)
      requires baseOffset > 0 ==> |history| - baseOffset + Slack(cap) >= cap
      modifies this`hot, this`cold, this`coldRaw, this`baseOffset
      ensures Valid() && baseOffset >= old(baseOffset)
      ensures |history| - old(baseOffset) <= cap ==> baseOffset == old(baseOffset)
    {
      var overflow := if coldRaw + |hot| > cap then coldRaw + |hot| - cap else 0;
      while overflow > 0
        invariant Stored() && (cap > HOT_MAX * 2 ==> |hot| <= HOT_MAX)
        invariant baseOffset >= old(baseOffset)
        invariant overflow == (if coldRaw + |hot| > cap then coldRaw + |hot| - cap else 0)
        invariant baseOffset > 0 ==> |history| - baseOffset + Slack(cap) >= cap
        invariant |history| - old(baseOffset) <= cap ==> baseOffset == old(baseOffset) && overflow == 0
        decreases overflow
      {
        if cold != [] {
          var n := cold[0].rawLen;
          EvictChunk();
          overflow := if overflow > n then overflow - n else 0;
        } else {
          DrainHot(overflow);
          overflow := 0;
        }
      }
    }

    method EvictChunk()
      requires Stored() && cold != []
      modifies this`cold, this`coldRaw, this`baseOffset
      ensures Stored() && baseOffset == old(baseOffset) + CHUNK_RAW && coldRaw == old(coldRaw) - CHUNK_RAW
    {
      DropFront(history, ColdBytes(deflate, cold[1..]), hot, deflate.unpack(cold[0].deflated), baseOffset);
      coldRaw := coldRaw - cold[0].rawLen;
      baseOffset := baseOffset + cold[0].rawLen;
      cold := cold[1..];
    }

    method DrainHot(n: nat)
      requires Stored() && cold == [] && n <= |hot|
      modifies this`hot, this`baseOffset
      ensures Stored() && baseOffset == old(baseOffset) + n && hot == old(hot)[n..]
    {
      assert ColdBytes(deflate, cold) == [] && history[baseOffset..] == hot by {
        assert ColdBytes(deflate, cold) + hot == hot;
      }
      assert history[baseOffset + n..] == hot[n..];
      hot := hot[n..];
      baseOffset := baseOffset + n;
      assert ColdBytes(deflate, cold) + hot == hot;
    }

    method PushInner(data: Bytes)
      requires Valid()
      modifies this`hot, this`cold, this`coldRaw, this`baseOffset, this`history
      ensures Valid() && history == old(history) + data && baseOffset >= old(baseOffset)
      ensures data == [] ==> baseOffset == old(baseOffset)
    {
      if |data| >= cap {
        var dropped := coldRaw + |hot|;
        var skip := |data| - cap;
        cold, coldRaw := [], 0;
        history := history + data;
        baseOffset := baseOffset + dropped + skip;
        hot := data[skip..];
        assert history[baseOffset..] == hot;
        Compact();
        return;
      }
      StoredAppend(ColdBytes(deflate, cold), hot, history, baseOffset, data);
      hot := hot + data;
      history := history + data;
      Compact();
      EvictOverCap();
    }

    /** Append, then wake the attached viewers; with none attached, drop the cached frame instead. */
    method Push(data: Bytes)
      requires Valid()
      modifies this
      ensures Valid() && history == old(history) + data && baseOffset >= old(baseOffset)
      ensures |history| - baseOffset <= cap && viewers == old(viewers)
      ensures notifications == old(notifications) + (if data != [] && viewers > 0 then 1 else 0)
      ensures frameCache == if data != [] && viewers > 0 then old(frameCache) else None
      ensures PushedTo(old(View()), data, View())
    {
      PushInner(data);
      if data != [] && viewers > 0 {
        notifications := notifications + 1;
      } else if frameCache.Some? {
        frameCache := None;
      }
    }

    /** Everything retained from `offset` onward. */
    method Since(offset: nat) returns (out: Bytes)
      requires Valid()
      ensures out == Tail(history, baseOffset, offset)
    {
      if offset >= TotalLen() { return []; }
      var start := if offset < baseOffset then baseOffset else offset;
      var hotStart := baseOffset + coldRaw;
      StoredTail(ColdBytes(deflate, cold), coldRaw, hot, history, baseOffset, offset, start);
      if start >= hotStart { return hot[start - hotStart..]; }
      var front := ColdSince(start);
      out := front + hot;
    }

    /** The cold bytes from `start` onward, inflating only the chunks that reach past it. */
    method ColdSince(start: nat) returns (out: Bytes)
      requires Stored() && baseOffset <= start < baseOffset + coldRaw
      ensures out == ColdBytes(deflate, cold)[start - baseOffset..]
    {
      out := [];
      var pos := baseOffset;
      ghost var want := ColdBytes(deflate, cold)[start - baseOffset..];
      for i := 0 to |cold|
        invariant pos >= baseOffset
        invariant Skip(start, pos) <= |ColdBytes(deflate, cold[i..])|
        invariant out + ColdBytes(deflate, cold[i..])[Skip(start, pos)..] == want
      {
        assert cold[i..][0] == cold[i] && cold[i..][1..] == cold[i + 1..];
        var c := cold[i];
        var raw := deflate.unpack(c.deflated);
        ghost var rest := ColdBytes(deflate, cold[i + 1..]);
        SkipInto(raw, rest, Skip(start, pos));
        var end := pos + c.rawLen;
        if end > start {
          ghost var was := out;
          out := out + raw[Skip(start, pos)..];
          assert was + (raw[Skip(start, pos)..] + rest) == out + rest;
        }
        pos := end;
      }
      assert cold[|cold|..] == [];
      assert out + [] == out;
    }

    method CachedFrameFor(from: nat, to: nat) returns (f: Option<Bytes>)
      ensures f.Some? <==> exists frame :: frameCache == Some(CachedFrame(from, to, frame))
      ensures f.Some? ==> frameCache == Some(CachedFrame(from, to, f.value))
    {
      f := if frameCache.Some? && frameCache.value.from == from && frameCache.value.to == to
           then Some(frameCache.value.frame) else None;
    }

    method StoreFrame(from: nat, to: nat, frame: Bytes)
      modifies this`frameCache
      ensures frameCache == if |frame| <= FRAME_CACHE_MAX then Some(CachedFrame(from, to, frame)) else old(frameCache)
    {
      if |frame| <= FRAME_CACHE_MAX {
        frameCache := Some(CachedFrame(from, to, frame));
      }
    }
  }

  /** How much of a chunk starting at `pos` lies before `start`. */
  function Skip(start: nat, pos: nat): nat {
    if start > pos then start - pos else 0
  }

  lemma SkipInto(raw: Bytes, rest: Bytes, skip: nat)
    requires skip <= |raw + rest|
    ensures skip <= |raw| ==> (raw + rest)[skip..] == raw[skip..] + rest
    ensures skip >= |raw| ==> (raw + rest)[skip..] == rest[skip - |raw|..]
  {
  }

  lemma DropFront(history: Bytes, cold: Bytes, hot: Bytes, front: Bytes, base: nat)
    requires base + |front| <= |history| && (front + cold) + hot == history[base..]
    ensures cold + hot == history[base + |front|..]
  {
    assert history[base + |front|..] == history[base..][|front|..];
  }

  /** A reader that lags by no more than the capacity, less a chunk but a byte in rings beyond 512 KiB, lost nothing. */
  lemma LagWithinCapacityLosesNothing(r: PtyRing, offset: nat)
    requires r.Valid() && offset <= |r.history|
    requires |r.history| - offset + (if r.cap <= 524_288 then 0 else 131_071) <= r.cap
    ensures r.baseOffset <= offset && Tail(r.history, r.baseOffset, offset) == r.history[offset..]
  {
  }
}
