/** Nothing in the stream can get stuck: from every reachable state a viewer can be brought up to date. */
module CatchUp {
  import opened Text
  import opened ByteStrings
  import opened PtyRings
  import opened LiveStream
  import opened ExactlyOnce
  import opened StreamDisplay

  lemma {:induction false} ReachesAppend(z: Gzip, s: System, a: seq<Event>, t: System, b: seq<Event>, u: System)
    requires Reaches(z, s, a, t) && Reaches(z, t, b, u)
    ensures Reaches(z, s, a + b, u)
    decreases |a|
  {
    if a == [] {
      assert a + b == b;
    } else {
      assert (a + b)[1..] == a[1..] + b;
      ReachesAppend(z, Step(z, s, a[0]), a[1..], t, b, u);
    }
  }

  /** The same history and floor, and the viewers are who they were. */
  ghost predicate SameRing(s: System, t: System) {
    t.ring.history == s.ring.history && t.ring.base == s.ring.base && |t.viewers| == |s.viewers|
  }

  /** One action of viewer `i`, taken. */
  lemma Do(z: Gzip, s: System, i: nat, a: Action) returns (t: System)
    requires z.Faithful() && Inv(z, s) && i < |s.viewers| && Ready(s.ring, s.viewers[i], a)
    ensures Reaches(z, s, [Act(i, a)], t) && Inv(z, t) && SameRing(s, t)
    ensures t.viewers[i] == ActStep(z, s.ring, s.viewers[i], a).1
  {
    var e := Act(i, a);
    t := Step(z, s, e);
    StepOk(z, s, e);
    ActOk(z, s.ring, s.viewers[i], a);
    assert [e][1..] == [];
    assert Reaches(z, t, [], t);
  }

  /** What is still on its way to the page: each step of pump, network or page makes it less. */
  function Work(v: Viewer): nat {
    |v.client.chain|
    + match v.conn
      case None => 0
      case Some(k) => 2 * |k.net| + (match k.stage case Idle => 0 case Encoding(_, _, _) => 4 case Sending(_) => 3)
  }

  ghost predicate Settled(v: Viewer) {
    v.client.chain == [] && (v.conn.Some? ==> v.conn.value.stage.Idle? && v.conn.value.net == [])
  }

  /** The same connection, as far as what it has claimed goes. */
  ghost predicate SameClaim(v: Viewer, w: Viewer) {
    && w.sound == v.sound && w.conn.Some? == v.conn.Some?
    && (v.conn.Some? ==> w.conn.value.offset == v.conn.value.offset)
  }

  function NextAction(v: Viewer): Action
    requires !Settled(v)
  {
    if v.client.chain != [] then Run
    else if v.conn.value.net != [] then Deliver
    else if v.conn.value.stage.Encoding? then Publish
    else Send
  }

  lemma NextIsReady(z: Gzip, r: Ring, v: Viewer)
    requires r.base <= |r.history| && !Settled(v)
    ensures Ready(r, v, NextAction(v))
    ensures var w := ActStep(z, r, v, NextAction(v)).1; Work(w) < Work(v) && SameClaim(v, w)
  {
  }

  /** Everything under way arrives and is applied. */
  lemma {:induction false} Settle(z: Gzip, s: System, i: nat) returns (events: seq<Event>, t: System)
    requires z.Faithful() && Inv(z, s) && i < |s.viewers|
    ensures Reaches(z, s, events, t) && Inv(z, t) && SameRing(s, t)
    ensures Settled(t.viewers[i]) && SameClaim(s.viewers[i], t.viewers[i])
    decreases Work(s.viewers[i])
  {
    if Settled(s.viewers[i]) {
      events, t := [], s;
    } else {
      var a := NextAction(s.viewers[i]);
      NextIsReady(z, s.ring, s.viewers[i]);
      var next := Do(z, s, i, a);
      var rest;
      rest, t := Settle(z, next, i);
      events := [Act(i, a)] + rest;
      ReachesAppend(z, s, [Act(i, a)], next, rest, t);
    }
  }

  /** A connection whose offset the floor has not passed takes the rest of the history, and it all arrives. */
  lemma Drain(z: Gzip, s: System, i: nat) returns (events: seq<Event>, t: System)
    requires z.Faithful() && Inv(z, s) && i < |s.viewers| && s.viewers[i].sound && s.viewers[i].conn.Some?
    requires s.ring.base <= s.viewers[i].conn.value.offset
    ensures Reaches(z, s, events, t) && Inv(z, t) && SameRing(s, t) && t.viewers[i].sound
    ensures t.viewers[i].conn.Some? && t.viewers[i].conn.value.offset == |s.ring.history| && Settled(t.viewers[i])
  {
    var a, b, c;
    var settled, taken;
    a, settled := Settle(z, s, i);
    taken := Do(z, settled, i, Take);
    b := [Act(i, Take)];
    ReachesAppend(z, s, a, settled, b, taken);
    c, t := Settle(z, taken, i);
    ReachesAppend(z, s, a + b, taken, c, t);
    events := a + b + c;
  }

  lemma DrainedShows(z: Gzip, history: Bytes, v: Viewer)
    requires ViewerOk(z, history, v) && Settled(v) && v.conn.Some? && v.conn.value.offset == |history|
    ensures TermBytes(v.client.term) + v.client.pending == history && v.client.ringOffset == |history|
  {
    assert history[..|history|] == history;
    assert Received(z, v.client) == Written(v.client) + [];
  }

  /** The selection ends, and what was held back is painted. */
  lemma ShowAll(z: Gzip, s: System, i: nat) returns (events: seq<Event>, t: System)
    requires z.Faithful() && Inv(z, s) && i < |s.viewers| && s.viewers[i].sound && Settled(s.viewers[i])
    requires s.viewers[i].conn.Some? && s.viewers[i].conn.value.offset == |s.ring.history|
    ensures Reaches(z, s, events, t) && SameRing(s, t) && t.viewers[i].sound
    ensures TermBytes(t.viewers[i].client.term) == s.ring.history && t.viewers[i].client.pending == []
  {
    var open := Do(z, s, i, Resume);
    t := Do(z, open, i, Action.Flush);
    events := [Act(i, Resume)] + [Act(i, Action.Flush)];
    ReachesAppend(z, s, [Act(i, Resume)], open, [Act(i, Action.Flush)], t);
    NothingQueued(z, open.viewers[i].client, Action.Flush);
    DrainedShows(z, t.ring.history, t.viewers[i]);
    assert TermBytes(t.viewers[i].client.term) + [] == TermBytes(t.viewers[i].client.term);
  }

  /**
    No deadlock: from every reachable state, a sound viewer whose next bytes the ring still has, connected or dropped
    with nothing left to apply, can be brought to show the whole history, by its own steps alone.
    */
  lemma CanCatchUp(z: Gzip, first: System, before: seq<Event>, s: System, i: nat)
    returns (events: seq<Event>, t: System)
    requires z.Faithful() && Initial(first) && Reaches(z, first, before, s) && i < |s.viewers| && s.viewers[i].sound
    requires var v := s.viewers[i];
      if v.conn.Some? then s.ring.base <= v.conn.value.offset
      else v.client.chain == [] && s.ring.base <= v.client.ringOffset
    ensures Reaches(z, s, events, t) && i < |t.viewers| && t.viewers[i].sound
    ensures t.ring.history == s.ring.history
    ensures TermBytes(t.viewers[i].client.term) == s.ring.history && t.viewers[i].client.pending == []
  {
    InitialInv(z, first);
    ReachableInv(z, first, before, s);
    var on, a, b := s, [], [];
    if s.viewers[i].conn.None? {
      on := Do(z, s, i, Reconnect);
      a := [Act(i, Reconnect)];
    }
    var drained;
    b, drained := Drain(z, on, i);
    ReachesAppend(z, s, a, on, b, drained);
    var c;
    c, t := ShowAll(z, drained, i);
    ReachesAppend(z, s, a + b, drained, c, t);
    events := a + b + c;
  }
}
