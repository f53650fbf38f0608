/** Length-delimited frames on a raw byte stream: four big-endian length bytes, a tag, a payload. */
module Framing {
  import opened Text
  import opened ByteStrings

  const MAX_FRAME_BYTES: nat := 2 * 1024 * 1024
  const U32: nat := 0x1_0000_0000

  datatype Frame = Frame(tag: Byte, payload: Bytes)

  /** What one read of a frame answers. */
  datatype Read = Got(frame: Frame) | End | Bad(len: nat)

  function ToBe(n: nat): Bytes
    requires n < U32
  {
    [n / 0x100_0000, n / 0x1_0000 % 0x100, n / 0x100 % 0x100, n % 0x100]
  }

  function FromBe(b: Bytes): nat
    requires |b| == 4
  {
    (b[0] as nat) * 0x100_0000 + (b[1] as nat) * 0x1_0000 + (b[2] as nat) * 0x100 + b[3] as nat
  }

  lemma BeRoundTrip(n: nat)
    requires n < U32
    ensures FromBe(ToBe(n)) == n
  {
    var q := n / 0x100;
    assert n == q * 0x100 + n % 0x100;
    assert q / 0x100 == n / 0x1_0000;
    assert q == n / 0x1_0000 * 0x100 + q % 0x100;
    assert n / 0x1_0000 / 0x100 == n / 0x100_0000;
    assert n / 0x1_0000 == n / 0x100_0000 * 0x100 + n / 0x1_0000 % 0x100;
  }

  /** The most significant byte comes first: lengths are ordered as their bytes are, read from the left. */
  lemma BigEndian(m: nat, n: nat)
    requires m < n < U32
    ensures exists i :: 0 <= i < 4 && ToBe(m)[..i] == ToBe(n)[..i] && ToBe(m)[i] < ToBe(n)[i]
  {
    var a, b := ToBe(m), ToBe(n);
    BeRoundTrip(m);
    BeRoundTrip(n);
    if a[0] != b[0] {
      assert a[..0] == b[..0] && a[0] < b[0];
    } else if a[1] != b[1] {
      assert a[..1] == b[..1] && a[1] < b[1];
    } else if a[2] != b[2] {
      assert a[..2] == b[..2] && a[2] < b[2];
    } else {
      assert a[..3] == b[..3] && a[3] < b[3];
    }
  }

  /** The frame on the wire; the length field is a 32-bit cast. */
  function Encode(f: Frame): Bytes {
    ToBe((1 + |f.payload|) % U32) + [f.tag] + f.payload
  }

  /** What reading one frame off the stream `s` answers, and what it leaves. */
  function Decode(s: Bytes): (Read, Bytes) {
    if |s| < 4 then (End, [])
    else
      var len := FromBe(s[..4]);
      if len == 0 || len > MAX_FRAME_BYTES then (Bad(len), s[4..])
      else if |s| - 4 < len then (End, [])
      else (Got(Frame(s[4], s[5..4 + len])), s[4 + len..])
  }

  function Flat(pieces: seq<Bytes>): Bytes {
    if pieces == [] then [] else pieces[0] + Flat(pieces[1..])
  }

  /** The receiving side: bytes arrive in pieces of any non-zero size. */
  class RecvStream {
    var pieces: seq<Bytes>

    ghost predicate Valid()
      reads this
    {
      forall i :: 0 <= i < |pieces| ==> pieces[i] != []
    }

    constructor (pieces: seq<Bytes>)
      requires forall i :: 0 <= i < |pieces| ==> pieces[i] != []
      ensures Valid() && this.pieces == pieces
    {
      this.pieces := pieces;
    }

    /** One read into `buf[from..]`: as much of the next piece as fits, or `None` at the end. */
    method Read(buf: array<Byte>, from: nat) returns (n: Option<nat>)
      requires Valid() && from < buf.Length
      modifies this, buf
      ensures Valid()
      ensures n.None? <==> Flat(old(pieces)) == []
      ensures n.None? ==> Flat(pieces) == [] && buf[..] == old(buf[..])
      ensures n.Some? ==> && 0 < n.value <= buf.Length - from && n.value <= |Flat(old(pieces))|
                          && Flat(pieces) == Flat(old(pieces))[n.value..]
                          && buf[..from] == old(buf[..from])
                          && buf[from..from + n.value] == Flat(old(pieces))[..n.value]
    {
      if pieces == [] {
        return None;
      }
      var piece := pieces[0];
      var k := if |piece| <= buf.Length - from then |piece| else buf.Length - from;
      forall i | 0 <= i < k {
        buf[from + i] := piece[i];
      }
      ghost var before := pieces;
      pieces := if k == |piece| then pieces[1..] else [piece[k..]] + pieces[1..];
      assert Flat(before)[k..] == Flat(pieces);
      n := Some(k);
    }
  }

  /** Fill the whole buffer; false when the stream ends first. */
  method ReadExact(recv: RecvStream, buf: array<Byte>) returns (ok: bool)
    requires recv.Valid()
    modifies recv, buf
    ensures recv.Valid()
    ensures ok <==> buf.Length <= |Flat(old(recv.pieces))|
    ensures ok ==> buf[..] == Flat(old(recv.pieces))[..buf.Length]
    ensures ok ==> Flat(recv.pieces) == Flat(old(recv.pieces))[buf.Length..]
    ensures !ok ==> Flat(recv.pieces) == []
  {
    var filled := 0;
    ghost var all := Flat(recv.pieces);
    while filled < buf.Length
      invariant recv.Valid() && filled <= buf.Length && filled <= |all|
      invariant buf[..filled] == all[..filled] && Flat(recv.pieces) == all[filled..]
    {
      var n := recv.Read(buf, filled);
      if n.None? || n.value == 0 {
        return false;
      }
      assert buf[..filled + n.value] == buf[..filled] + buf[filled..filled + n.value];
      assert all[..filled + n.value] == all[..filled] + all[filled..][..n.value];
      filled := filled + n.value;
    }
    assert buf[..] == buf[..filled];
    ok := true;
  }

  method ReadFrame(recv: RecvStream) returns (r: Read)
    requires recv.Valid()
    modifies recv
    ensures recv.Valid()
    ensures (r, Flat(recv.pieces)) == Decode(Flat(old(recv.pieces)))
  {
    ghost var all := Flat(recv.pieces);
    var head := new Byte[4](_ => 0);
    var ok := ReadExact(recv, head);
    if !ok { return End; }
    var len := FromBe(head[..]);
    if len == 0 || len > MAX_FRAME_BYTES { return Bad(len); }
    var body := new Byte[len](_ => 0);
    ok := ReadExact(recv, body);
    if !ok { return End; }
    assert all[4..][..len] == all[4..4 + len];
    assert body[..][1..] == all[5..4 + len];
    r := Got(Frame(body[0], body[1..]));
  }

  // ------------------------------------------------------------ round trips

  /** A frame reads back as itself exactly when it is within the reader's cap. */
  lemma FrameRoundTripIff(f: Frame, rest: Bytes)
    ensures Decode(Encode(f) + rest) == (Got(f), rest) <==> 1 + |f.payload| <= 2_097_152
  {
    var n := (1 + |f.payload|) % U32;
    BeRoundTrip(n);
    var s := Encode(f) + rest;
    assert s[..4] == ToBe(n) && s[4] == f.tag;
    if 1 + |f.payload| <= MAX_FRAME_BYTES {
      assert s[5..4 + n] == f.payload && s[4 + n..] == rest;
    } else if Decode(s).0.Got? {
      assert |Decode(s).0.frame.payload| == n - 1 < |f.payload|;
    }
  }

  /** A frame on the wire: four length bytes that count the tag and the payload, then the tag, then the payload. */
  lemma FrameOnTheWire(f: Frame)
    requires 1 + |f.payload| < U32
    ensures Encode(f)[..4] == ToBe(1 + |f.payload|) && Encode(f)[4] == f.tag && Encode(f)[5..] == f.payload
  {
    var n := 1 + |f.payload|;
    assert n % U32 == n;
    ThreeParts(ToBe(n), f.tag, f.payload);
  }

  lemma ThreeParts(length: Bytes, tag: Byte, payload: Bytes)
    requires |length| == 4
    ensures var s := length + [tag] + payload; s[..4] == length && s[4] == tag && s[5..] == payload
  {
  }

  /** A length of nought, or beyond 2 MiB, is refused before anything else is read. */
  lemma BadLengthIsRefused(n: nat, rest: Bytes)
    requires n < U32 && (n == 0 || n > 2_097_152)
    ensures Decode(ToBe(n) + rest) == (Bad(n), rest)
  {
    BeRoundTrip(n);
    assert (ToBe(n) + rest)[..4] == ToBe(n);
  }

  function EncodeAll(fs: seq<Frame>): Bytes {
    if fs == [] then [] else Encode(fs[0]) + EncodeAll(fs[1..])
  }

  ghost predicate WithinCap(fs: seq<Frame>) {
    forall i :: 0 <= i < |fs| ==> 1 + |fs[i].payload| <= MAX_FRAME_BYTES
  }

  lemma DecodeShrinks(s: Bytes)
    ensures Decode(s).0.Got? ==> |Decode(s).1| < |s|
  {
  }

  /** Reading frames until the stream ends or a length is refused. */
  function DecodeAll(s: Bytes): (seq<Frame>, Read)
    decreases |s|
  {
    DecodeShrinks(s);
    var (r, rest) := Decode(s);
    if r.Got? then
      var (fs, stop) := DecodeAll(rest);
      ([r.frame] + fs, stop)
    else ([], r)
  }

  /** Reading every frame of a stream, as a receiver does. */
  method ReadAll(recv: RecvStream) returns (fs: seq<Frame>, stop: Read)
    requires recv.Valid()
    modifies recv
    ensures (fs, stop) == DecodeAll(Flat(old(recv.pieces)))
  {
    fs := [];
    ghost var all := Flat(recv.pieces);
    while true
      invariant recv.Valid()
      invariant fs + DecodeAll(Flat(recv.pieces)).0 == DecodeAll(all).0
      invariant DecodeAll(Flat(recv.pieces)).1 == DecodeAll(all).1
      decreases |Flat(recv.pieces)|
    {
      DecodeShrinks(Flat(recv.pieces));
      ghost var s := Flat(recv.pieces);
      stop := ReadFrame(recv);
      assert (stop, Flat(recv.pieces)) == Decode(s);
      if !stop.Got? {
        assert DecodeAll(s) == ([], stop) && fs + [] == fs;
        return;
      }
      ghost var more := DecodeAll(Flat(recv.pieces)).0;
      assert DecodeAll(s).0 == [stop.frame] + more;
      assert fs + ([stop.frame] + more) == (fs + [stop.frame]) + more;
      fs := fs + [stop.frame];
    }
  }

  lemma TruncatedFrameEnds(f: Frame, t: Bytes)
    requires 1 + |f.payload| <= MAX_FRAME_BYTES && IsPrefix(t, Encode(f)) && |t| < |Encode(f)|
    ensures Decode(t) == (End, [])
  {
    EncodedLength(f);
    if |t| >= 4 {
      assert t[..4] == Encode(f)[..|t|][..4] == Encode(f)[..4];
    }
  }

  lemma EncodedLength(f: Frame)
    requires 1 + |f.payload| <= MAX_FRAME_BYTES
    ensures |Encode(f)| == 5 + |f.payload| && FromBe(Encode(f)[..4]) == 1 + |f.payload|
  {
    var n := 1 + |f.payload|;
    assert n % U32 == n;
    assert Encode(f)[..4] == ToBe(n);
    BeRoundTrip(n);
  }

  lemma CutInside(first: Bytes, rest: Bytes, t: Bytes)
    requires IsPrefix(t, first + rest) && |t| < |first|
    ensures IsPrefix(t, first)
  {
    assert t == (first + rest)[..|t|] == first[..|t|];
  }

  lemma CutBeyond(first: Bytes, rest: Bytes, t: Bytes)
    requires IsPrefix(t, first + rest) && |t| >= |first|
    ensures t == first + t[|first|..] && IsPrefix(t[|first|..], rest)
  {
    assert t == (first + rest)[..|t|];
    assert (first + rest)[..|t|][..|first|] == first;
    assert (first + rest)[..|t|][|first|..] == rest[..|t| - |first|];
  }

  /**
    Whatever the chunking, a stream cut anywhere reads back as exactly its complete leading frames:
    `n` frames lie wholly before the cut, those are read, and the read ends cleanly.
    */
  lemma {:induction false} CutStreamReadsBack(fs: seq<Frame>, t: Bytes) returns (n: nat)
    requires WithinCap(fs) && IsPrefix(t, EncodeAll(fs))
    ensures n <= |fs| && DecodeAll(t) == (fs[..n], End)
    ensures |EncodeAll(fs[..n])| <= |t| && (n < |fs| ==> |t| < |EncodeAll(fs[..n + 1])|)
    ensures t == EncodeAll(fs) ==> n == |fs|
  {
    if fs == [] {
      n := 0;
    } else {
      var first, rest := Encode(fs[0]), EncodeAll(fs[1..]);
      if |t| < |first| {
        n := 0;
        CutInside(first, rest, t);
        TruncatedFrameEnds(fs[0], t);
        EncodeAllTake(fs, 0);
      } else {
        var tail := t[|first|..];
        CutBeyond(first, rest, t);
        LaterWithinCap(fs);
        var m := CutStreamReadsBack(fs[1..], tail);
        n := m + 1;
        CutAfterFirst(fs, first, tail, m);
        DecodeRest(fs, tail, m);
        if t == EncodeAll(fs) { WholeRest(first, rest, t); }
      }
    }
  }

  lemma WholeRest(first: Bytes, rest: Bytes, t: Bytes)
    requires t == first + rest
    ensures t[|first|..] == rest
  {
  }

  lemma DecodeRest(fs: seq<Frame>, tail: Bytes, m: nat)
    requires WithinCap(fs) && m < |fs| && DecodeAll(tail) == (fs[1..][..m], End)
    ensures DecodeAll(Encode(fs[0]) + tail) == (fs[..m + 1], End)
  {
    DecodeFirst(fs[0], tail, fs[1..][..m]);
    assert [fs[0]] + fs[1..][..m] == fs[..m + 1];
  }

  lemma LaterWithinCap(fs: seq<Frame>)
    requires WithinCap(fs) && fs != []
    ensures WithinCap(fs[1..])
  {
    forall i | 0 <= i < |fs[1..]| ensures fs[1..][i] == fs[i + 1] {}
  }

  lemma DecodeFirst(f: Frame, tail: Bytes, more: seq<Frame>)
    requires 1 + |f.payload| <= MAX_FRAME_BYTES && DecodeAll(tail) == (more, End)
    ensures DecodeAll(Encode(f) + tail) == ([f] + more, End)
  {
    FrameRoundTripIff(f, tail);
  }

  /** Where the cut falls among the later frames says where it falls among all of them. */
  lemma CutAfterFirst(fs: seq<Frame>, first: Bytes, tail: Bytes, m: nat)
    requires fs != [] && first == Encode(fs[0]) && m <= |fs| - 1
    requires |EncodeAll(fs[1..][..m])| <= |tail|
    requires m < |fs| - 1 ==> |tail| < |EncodeAll(fs[1..][..m + 1])|
    ensures |EncodeAll(fs[..m + 1])| <= |first + tail|
    ensures m + 1 < |fs| ==> |first + tail| < |EncodeAll(fs[..m + 2])|
  {
    EncodeAllTake(fs, m);
    if m + 1 < |fs| { EncodeAllTake(fs, m + 1); }
  }

  lemma EncodeAllTake(fs: seq<Frame>, m: nat)
    requires m + 1 <= |fs|
    ensures EncodeAll(fs[..m + 1]) == Encode(fs[0]) + EncodeAll(fs[1..][..m])
  {
    assert fs[..m + 1][0] == fs[0] && fs[..m + 1][1..] == fs[1..][..m];
  }
}
