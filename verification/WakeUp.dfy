/** Wake-ups: parked pumps and the parked drain loop against everyone who may have work for them. */
module PumpWakeUp {

  /** A WebSocket pump counts itself as a viewer; a WebTransport pump does not. */
  datatype Kind = WebSocket | WebTransport

  datatype Pc = Starting | Arming | Flushing | Parked

  /** `armed`: its waiter is registered. `woken`: a notification has reached it since it armed. */
  datatype Pump = Pump(kind: Kind, pc: Pc, offset: nat, armed: bool, woken: bool)

  /** A push holds the ring's lock from its append until after its notification. */
  datatype Push = Quiet | Appended | Decided(notify: bool)

  /** `watched` records whether every viewer check so far saw a viewer. */
  datatype State = State(total: nat, push: Push, attached: set<nat>, pumps: map<nat, Pump>, watched: bool)

  datatype Event =
    | Append(n: nat)
    | Decide
    | Notify
    | Start(p: nat, kind: Kind, since: nat)
    | Attach(p: nat)
    | Arm(p: nat)
    | Flush(p: nat)
    | Wake(p: nat)
    | Tick(p: nat)
    | Leave(p: nat)

  predicate At(s: State, p: nat, pc: Pc) {
    p in s.pumps && s.pumps[p].pc == pc
  }

  predicate Enabled(s: State, e: Event) {
    match e
    case Append(n) => s.push.Quiet? && n > 0
    case Decide => s.push.Appended?
    case Notify => s.push.Decided?
    case Start(p, _, since) => p !in s.pumps && since <= s.total
    case Attach(p) => At(s, p, Starting)
    case Arm(p) => At(s, p, Arming)
    case Flush(p) => At(s, p, Flushing) && s.push.Quiet?
    case Wake(p) => At(s, p, Parked) && s.pumps[p].woken
    case Tick(p) => At(s, p, Parked) && s.pumps[p].kind.WebSocket?
    case Leave(p) => p in s.pumps
  }

  /** `notify_waiters`: every registered waiter is woken; nothing is kept for later ones. */
  function Notified(pumps: map<nat, Pump>): map<nat, Pump> {
    map p | p in pumps :: if pumps[p].armed then pumps[p].(armed := false, woken := true) else pumps[p]
  }

  function Step(s: State, e: Event): State
    requires Enabled(s, e)
  {
    match e
    case Append(n) => s.(total := s.total + n, push := Appended)
    case Decide => s.(push := Decided(s.attached != {}), watched := s.watched && s.attached != {})
    case Notify => s.(push := Quiet, pumps := if s.push.notify then Notified(s.pumps) else s.pumps)
    case Start(p, kind, since) => s.(pumps := s.pumps[p := Pump(kind, Starting, since, false, false)])
    case Attach(p) =>
      s.(attached := if s.pumps[p].kind.WebSocket? then s.attached + {p} else s.attached,
         pumps := s.pumps[p := s.pumps[p].(pc := Arming)])
    case Arm(p) => s.(pumps := s.pumps[p := s.pumps[p].(pc := Flushing, armed := true, woken := false)])
    case Flush(p) => s.(pumps := s.pumps[p := s.pumps[p].(pc := Parked, offset := s.total)])
    case Wake(p) => s.(pumps := s.pumps[p := s.pumps[p].(pc := Arming, armed := false, woken := false)])
    case Tick(p) => s.(pumps := s.pumps[p := s.pumps[p].(pc := Arming, armed := false, woken := false)])
    case Leave(p) => s.(attached := s.attached - {p}, pumps := s.pumps - {p})
  }

  /** A notification is on its way: the pusher has yet to look for viewers, or has seen one. */
  predicate Coming(s: State) {
    s.push.Appended? || (s.push.Decided? && s.push.notify)
  }

  ghost predicate Inv(s: State) {
    && s.attached <= s.pumps.Keys
    && forall p :: p in s.pumps ==>
         var m := s.pumps[p];
         && (m.kind.WebSocket? && !m.pc.Starting? ==> p in s.attached)
         && (m.pc.Flushing? || m.pc.Parked? ==> m.armed || m.woken)
         && (m.pc.Parked? && !m.woken && (m.kind.WebSocket? || s.watched) ==> m.offset == s.total || Coming(s))
  }

  lemma StepInv(s: State, e: Event)
    requires Inv(s) && Enabled(s, e)
    ensures Inv(Step(s, e))
  {
  }

  ghost predicate Reaches(s: State, events: seq<Event>, t: State)
    decreases |events|
  {
    if events == [] then s == t
    else Enabled(s, events[0]) && Reaches(Step(s, events[0]), events[1..], t)
  }

  const INITIAL := State(0, Quiet, {}, map[], true)

  lemma {:induction false} ReachableInv(s: State, events: seq<Event>, t: State)
    requires Inv(s) && Reaches(s, events, t)
    ensures Inv(t)
    decreases |events|
  {
    if events != [] {
      StepInv(s, events[0]);
      ReachableInv(Step(s, events[0]), events[1..], t);
    }
  }

  /**
    No lost wake-up: in every interleaving, a parked pump with unsent bytes has been notified, or the pusher
    that appended them still will. For a WebTransport pump this needs every push to have found a viewer.
    */
  lemma NoLostWakeUp(events: seq<Event>, t: State, p: nat)
    requires Reaches(INITIAL, events, t) && p in t.pumps && t.pumps[p].pc.Parked? && t.pumps[p].offset != t.total
    requires t.pumps[p].kind.WebSocket? || t.watched
    ensures t.pumps[p].woken || Coming(t)
  {
    ReachableInv(INITIAL, events, t);
  }

  /** A whole push, run while a pump is parked and caught up, wakes it exactly when some viewer is attached. */
  lemma PushWakesIff(s: State, p: nat, n: nat)
    requires Inv(s) && s.push.Quiet? && n > 0 && p in s.pumps
    requires s.pumps[p].pc.Parked? && s.pumps[p].offset == s.total && !s.pumps[p].woken
    ensures var t := Step(Step(Step(s, Append(n)), Decide), Notify);
            && t.push.Quiet? && t.pumps[p].pc.Parked? && t.pumps[p].offset != t.total
            && (t.pumps[p].woken <==> s.attached != {})
  {
  }

  /** With no viewer attached, nothing wakes a parked WebTransport pump, however much is pushed. */
  lemma {:induction false} UnwatchedStaysParked(s: State, events: seq<Event>, t: State, p: nat)
    requires Reaches(s, events, t) && s.attached == {} && (s.push.Decided? ==> !s.push.notify)
    requires p in s.pumps && s.pumps[p].pc.Parked? && !s.pumps[p].woken && s.pumps[p].kind.WebTransport?
    requires forall e :: e in events ==> !e.Attach? && e != Leave(p)
    ensures p in t.pumps && t.pumps[p] == s.pumps[p]
    decreases |events|
  {
    if events != [] {
      UnwatchedStaysParked(Step(s, events[0]), events[1..], t, p);
    }
  }

  // ------------------------------------------------------------ the exact condition over runs

  /** A notification that was decided on, for a pump that armed in time, is still to be given. */
  predicate Promised(s: State) {
    s.push.Decided? && s.push.notify
  }

  /** Whether a push that has looked for viewers since `p` last armed, or was about to notify then, found one. */
  predicate FoundAfter(s: State, e: Event, p: nat, found: bool) {
    match e
    case Arm(q) => if q == p then Promised(s) else found
    case Decide => found || s.attached != {}
    case _ => found
  }

  ghost predicate Found(s: State, events: seq<Event>, t: State, p: nat, found: bool)
    requires Reaches(s, events, t)
    decreases |events|
  {
    if events == [] then found
    else Found(Step(s, events[0]), events[1..], t, p, FoundAfter(s, events[0], p, found))
  }

  ghost predicate Told(s: State, p: nat, found: bool) {
    p in s.pumps && (s.pumps[p].pc.Flushing? || s.pumps[p].pc.Parked?) ==>
      (s.pumps[p].woken || Promised(s) <==> found)
  }

  lemma StepTold(s: State, e: Event, p: nat, found: bool)
    requires Inv(s) && Enabled(s, e) && Told(s, p, found)
    ensures Told(Step(s, e), p, FoundAfter(s, e, p, found))
  {
  }

  lemma {:induction false} RunTold(s: State, events: seq<Event>, t: State, p: nat, found: bool)
    requires Inv(s) && Reaches(s, events, t) && Told(s, p, found)
    ensures Told(t, p, Found(s, events, t, p, found))
    decreases |events|
  {
    if events != [] {
      StepInv(s, events[0]);
      StepTold(s, events[0], p, found);
      RunTold(Step(s, events[0]), events[1..], t, p, FoundAfter(s, events[0], p, found));
    }
  }

  /**
    Over whole runs, and for either kind of pump: a parked pump has been woken, or a notification decided on is
    still to reach it, if and only if some push since it armed found a viewer.
    */
  lemma WokenIffFound(events: seq<Event>, t: State, p: nat)
    requires Reaches(INITIAL, events, t) && At(t, p, Parked)
    ensures t.pumps[p].woken || Promised(t) <==> Found(INITIAL, events, t, p, false)
  {
    RunTold(INITIAL, events, t, p, false);
  }

  // ------------------------------------------------------------ catching up

  /** The push under way, if any, to its end. */
  lemma PushEnds(s: State, p: nat) returns (events: seq<Event>, t: State)
    requires Inv(s) && At(s, p, Parked)
    requires s.pumps[p].woken || Coming(s)
    requires s.push.Appended? ==> s.attached != {}
    ensures Reaches(s, events, t) && Inv(t) && t.push.Quiet? && t.total == s.total
    ensures At(t, p, Parked) && t.pumps[p].woken
  {
    if s.push.Quiet? {
      events, t := [], s;
    } else if s.push.Decided? {
      t := Step(s, Notify);
      StepInv(s, Notify);
      assert Reaches(t, [], t);
      Prepend(s, Notify, [], t);
      events := [Notify] + [];
    } else {
      var decided := Step(s, Decide);
      StepInv(s, Decide);
      t := Step(decided, Notify);
      StepInv(decided, Notify);
      assert Reaches(t, [], t);
      Prepend(decided, Notify, [], t);
      Prepend(s, Decide, [Notify] + [], t);
      events := [Decide] + ([Notify] + []);
    }
  }

  /** A woken pump, with no push under way, arms again and flushes everything. */
  lemma WokenCatchesUp(s: State, p: nat) returns (t: State)
    requires At(s, p, Parked) && s.pumps[p].woken && s.push.Quiet?
    ensures Reaches(s, [Wake(p), Arm(p), Flush(p)], t) && At(t, p, Parked) && t.pumps[p].offset == t.total == s.total
  {
    var awake := Step(s, Wake(p));
    var armed := Step(awake, Arm(p));
    t := Step(armed, Flush(p));
    assert Reaches(t, [], t);
    Prepend(armed, Flush(p), [], t);
    Prepend(awake, Arm(p), [Flush(p)] + [], t);
    Prepend(s, Wake(p), [Arm(p)] + ([Flush(p)] + []), t);
    assert [Wake(p)] + ([Arm(p)] + ([Flush(p)] + [])) == [Wake(p), Arm(p), Flush(p)];
  }

  lemma {:induction false} ReachesAppend(s: State, a: seq<Event>, t: State, b: seq<Event>, u: State)
    requires Reaches(s, a, t) && Reaches(t, b, u)
    ensures Reaches(s, a + b, u)
    decreases |a|
  {
    if a == [] {
      assert a + b == b;
    } else {
      assert (a + b)[1..] == a[1..] + b;
      ReachesAppend(Step(s, a[0]), a[1..], t, b, u);
    }
  }

  /** A WebSocket pump does so at its next tick, woken or not. */
  lemma TickCatchesUp(s: State, p: nat) returns (t: State)
    requires At(s, p, Parked) && s.pumps[p].kind.WebSocket? && s.push.Quiet?
    ensures Reaches(s, [Tick(p), Arm(p), Flush(p)], t) && At(t, p, Parked) && t.pumps[p].offset == t.total == s.total
  {
    var awake := Step(s, Tick(p));
    var armed := Step(awake, Arm(p));
    t := Step(armed, Flush(p));
    assert Reaches(t, [], t);
    Prepend(armed, Flush(p), [], t);
    Prepend(awake, Arm(p), [Flush(p)] + [], t);
    Prepend(s, Tick(p), [Arm(p)] + ([Flush(p)] + []), t);
    assert [Tick(p)] + ([Arm(p)] + ([Flush(p)] + [])) == [Tick(p), Arm(p), Flush(p)];
  }

  /** In every interleaving, a WebSocket pump parked over unsent bytes has them sent by steps that are then due. */
  lemma ParkedCanCatchUp(events: seq<Event>, s: State, p: nat) returns (more: seq<Event>, t: State)
    requires Reaches(INITIAL, events, s) && At(s, p, Parked) && s.pumps[p].kind.WebSocket?
    requires s.pumps[p].offset != s.total
    ensures Reaches(s, more, t) && At(t, p, Parked) && t.pumps[p].offset == t.total == s.total
  {
    ReachableInv(INITIAL, events, s);
    var a, quiet := PushEnds(s, p);
    t := WokenCatchesUp(quiet, p);
    more := a + [Wake(p), Arm(p), Flush(p)];
    ReachesAppend(s, a, quiet, [Wake(p), Arm(p), Flush(p)], t);
  }

  // ------------------------------------------------------------ a lost wake-up

  /** A lone WebTransport pump, and the state in which its bytes are left unsent. */
  function Lone(total: nat, push: Push, pc: Pc, armed: bool, watched: bool): State {
    State(total, push, {}, map[0 := Pump(WebTransport, pc, 0, armed, false)], watched)
  }

  const STUCK := Lone(1, Quiet, Parked, true, false)

  lemma LoneParks(events: seq<Event>)
    requires Reaches(Lone(0, Quiet, Parked, true, true), events, STUCK)
    ensures Reaches(Lone(0, Quiet, Arming, false, true), [Arm(0), Flush(0)] + events, STUCK)
  {
    var s1, s2 := Lone(0, Quiet, Arming, false, true), Lone(0, Quiet, Flushing, true, true);
    assert Step(s2, Flush(0)) == Lone(0, Quiet, Parked, true, true);
    assert Step(s1, Arm(0)) == s2;
    Prepend(s2, Flush(0), events, STUCK);
    Prepend(s1, Arm(0), [Flush(0)] + events, STUCK);
    assert [Arm(0)] + ([Flush(0)] + events) == [Arm(0), Flush(0)] + events;
  }

  lemma LoneStarts(events: seq<Event>)
    requires Reaches(Lone(0, Quiet, Arming, false, true), events, STUCK)
    ensures Reaches(INITIAL, [Start(0, WebTransport, 0), Attach(0)] + events, STUCK)
  {
    var s1 := Lone(0, Quiet, Starting, false, true);
    assert Step(s1, Attach(0)) == Lone(0, Quiet, Arming, false, true);
    assert Step(INITIAL, Start(0, WebTransport, 0)) == s1;
    Prepend(s1, Attach(0), events, STUCK);
    Prepend(INITIAL, Start(0, WebTransport, 0), [Attach(0)] + events, STUCK);
    assert [Start(0, WebTransport, 0)] + ([Attach(0)] + events) == [Start(0, WebTransport, 0), Attach(0)] + events;
  }

  lemma LonePush()
    ensures Reaches(Lone(0, Quiet, Parked, true, true), [Append(1), Decide, Notify], STUCK)
  {
    var s1, s2 := Lone(1, Appended, Parked, true, true), Lone(1, Decided(false), Parked, true, false);
    assert Reaches(STUCK, [], STUCK);
    Prepend(s2, Notify, [], STUCK);
    Prepend(s1, Decide, [Notify], STUCK);
    Prepend(Lone(0, Quiet, Parked, true, true), Append(1), [Decide, Notify], STUCK);
  }

  /** So the WebTransport pump can lose a wake-up: it parks caught up, one byte is pushed, and nobody tells it. */
  lemma WebTransportCanLoseAWakeUp()
    ensures exists events: seq<Event>, t: State ::
      && Reaches(INITIAL, events, t) && 0 in t.pumps && t.pumps[0].pc.Parked? && t.pumps[0].offset < t.total
      && !t.pumps[0].woken && !Coming(t)
  {
    LonePush();
    LoneParks([Append(1), Decide, Notify]);
    LoneStarts([Arm(0), Flush(0)] + [Append(1), Decide, Notify]);
  }

  lemma Prepend(s: State, e: Event, events: seq<Event>, t: State)
    requires Enabled(s, e) && Reaches(Step(s, e), events, t)
    ensures Reaches(s, [e] + events, t)
  {
    assert ([e] + events)[1..] == events;
  }
}

/** The headless drain loop parked on a condition variable, against `touch`. */
module ActivityWakeUp {

  /** `Holding`: has the pairing mutex. `Checked`: holds it and found nothing new. */
  datatype Pc = Working | Holding | Checked | Parked | Resumed

  /** `bumped`: touches that raised the counter. `passed`: those that have also been through the mutex. */
  datatype State = State(counter: nat, lastSeen: nat, pc: Pc, bumped: set<nat>, passed: set<nat>)

  datatype Event =
    | Bump(touch: nat)
    | Pass(touch: nat)
    | Notify(touch: nat)
    | Lock
    | Check
    | Park
    | TimeOut
    | ReadCounter

  predicate MutexFree(s: State) {
    !s.pc.Holding? && !s.pc.Checked?
  }

  /** `guarded`: whether a touch goes through the mutex between its bump and its notify. */
  predicate Enabled(guarded: bool, s: State, e: Event) {
    match e
    case Bump(i) => i !in s.bumped && i !in s.passed
    case Pass(i) => i in s.bumped && (guarded ==> MutexFree(s))
    case Notify(i) => i in s.passed
    case Lock => s.pc.Working?
    case Check => s.pc.Holding?
    case Park => s.pc.Checked?
    case TimeOut => s.pc.Parked?
    case ReadCounter => s.pc.Resumed?
  }

  function Step(s: State, e: Event): State {
    match e
    case Bump(i) => s.(counter := s.counter + 1, bumped := s.bumped + {i})
    case Pass(i) => s.(bumped := s.bumped - {i}, passed := s.passed + {i})
    case Notify(i) => s.(passed := s.passed - {i}, pc := if s.pc.Parked? then Resumed else s.pc)
    case Lock => s.(pc := Holding)
    case Check => s.(pc := if s.counter == s.lastSeen then Checked else Resumed)
    case Park => s.(pc := Parked)
    case TimeOut => s.(pc := Resumed)
    case ReadCounter => s.(lastSeen := s.counter, pc := Working)
  }

  ghost predicate Inv(s: State) {
    && (s.pc.Checked? && s.counter != s.lastSeen ==> s.bumped != {})
    && (s.pc.Parked? && s.counter != s.lastSeen ==> s.bumped + s.passed != {})
  }

  lemma StepInv(s: State, e: Event)
    requires Inv(s) && Enabled(true, s, e)
    ensures Inv(Step(s, e))
  {
    if e.Pass? {
      assert e.touch in Step(s, e).passed;
    } else if e.Bump? {
      assert e.touch in Step(s, e).bumped;
    }
  }

  ghost predicate Reaches(guarded: bool, s: State, events: seq<Event>, t: State)
    decreases |events|
  {
    if events == [] then s == t
    else Enabled(guarded, s, events[0]) && Reaches(guarded, Step(s, events[0]), events[1..], t)
  }

  const INITIAL := State(0, 0, Working, {}, {})

  lemma {:induction false} ReachableInv(s: State, events: seq<Event>, t: State)
    requires Inv(s) && Reaches(true, s, events, t)
    ensures Inv(t)
    decreases |events|
  {
    if events != [] {
      StepInv(s, events[0]);
      ReachableInv(Step(s, events[0]), events[1..], t);
    }
  }

  /** A loop parked over unseen activity always has a touch whose notification is still to come. */
  lemma NoLostTouch(events: seq<Event>, t: State)
    requires Reaches(true, INITIAL, events, t) && t.pc.Parked? && t.counter != t.lastSeen
    ensures exists i :: i in t.bumped || i in t.passed
  {
    ReachableInv(INITIAL, events, t);
    var i :| i in t.bumped + t.passed;
    assert i in t.bumped || i in t.passed;
  }

  lemma NotifiedSees(s: State, i: nat) returns (t: State)
    requires s.pc.Parked? && i in s.passed
    ensures Reaches(true, s, [Notify(i), ReadCounter], t) && t.pc.Working? && t.lastSeen == t.counter == s.counter
  {
    var resumed := Step(s, Notify(i));
    t := Step(resumed, ReadCounter);
    assert Reaches(true, t, [], t);
    assert [Notify(i), ReadCounter][1..] == [ReadCounter] && [ReadCounter][1..] == [];
  }

  /** And by steps that are then due the loop comes to see the activity. */
  lemma ParkedCanSee(events: seq<Event>, s: State) returns (more: seq<Event>, t: State)
    requires Reaches(true, INITIAL, events, s) && s.pc.Parked? && s.counter != s.lastSeen
    ensures Reaches(true, s, more, t) && t.pc.Working? && t.lastSeen == t.counter == s.counter
  {
    NoLostTouch(events, s);
    if i :| i in s.passed {
      t := NotifiedSees(s, i);
      more := [Notify(i), ReadCounter];
    } else {
      var i :| i in s.bumped;
      var passed := Step(s, Pass(i));
      t := NotifiedSees(passed, i);
      more := [Pass(i)] + [Notify(i), ReadCounter];
      assert more[1..] == [Notify(i), ReadCounter];
    }
  }

  /** Taking and dropping the mutex is what makes it so: without it, a touch slips between the check and the park. */
  lemma UnguardedTouchCanBeLost()
    ensures exists events: seq<Event>, t: State ::
      Reaches(false, INITIAL, events, t) && t.pc.Parked? && t.counter != t.lastSeen && t.bumped + t.passed == {}
  {
    var s1 := Step(INITIAL, Lock);
    var s2 := Step(s1, Check);
    var s3 := Step(s2, Bump(0));
    var s4 := Step(s3, Pass(0));
    var s5 := Step(s4, Notify(0));
    var t := Step(s5, Park);
    assert Reaches(false, t, [], t);
    Prepend(s5, Park, [], t);
    Prepend(s4, Notify(0), [Park], t);
    Prepend(s3, Pass(0), [Notify(0), Park], t);
    Prepend(s2, Bump(0), [Pass(0), Notify(0), Park], t);
    Prepend(s1, Check, [Bump(0), Pass(0), Notify(0), Park], t);
    Prepend(INITIAL, Lock, [Check, Bump(0), Pass(0), Notify(0), Park], t);
    assert t.bumped + t.passed == {};
  }

  lemma Prepend(s: State, e: Event, events: seq<Event>, t: State)
    requires Enabled(false, s, e) && Reaches(false, Step(s, e), events, t)
    ensures Reaches(false, s, [e] + events, t)
  {
    assert ([e] + events)[1..] == events;
  }
}
