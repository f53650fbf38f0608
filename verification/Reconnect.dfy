/** The viewer's connection: one socket or one timer, and a banner that tells the truth. */
module Reconnect {
  import opened Text

  datatype Phase = Connecting | Open | Closing | Closed

  /** A socket the page has opened, and whether the page's handlers are still on it. */
  datatype Socket = Socket(phase: Phase, attached: bool)

  /** `timers` are the timeouts the browser will still fire, with their delays. */
  datatype Page = Page(sockets: seq<Socket>, ws: Option<nat>, timer: Option<nat>, timers: map<nat, nat>,
                       nextTimer: nat, attempt: nat, down: bool, painted: seq<nat>)

  const LOADED := Page([], None, None, map[], 1, 0, false, [])

  /** What happens to a page: a timer fires, or the network reports on a socket. */
  datatype Event =
    | Fire(timer: nat, urlOk: bool, socketOk: bool)
    | Opened(socket: nat)
    | Message(socket: nat)
    | Dropped(socket: nat, code: nat)

  const POLICY: nat := 1008
  const LOCK_RETRY_MS: nat := 30_000

  function Pow2(n: nat): nat {
    if n == 0 then 1 else 2 * Pow2(n - 1)
  }

  function Min(a: nat, b: nat): nat {
    if a < b then a else b
  }

  function DelayMs(attempt: nat): nat
    requires attempt > 0
  {
    Min(1000 * Pow2(attempt - 1), 30_000)
  }

  // ------------------------------------------------------------ handlers

  function ClearTimer(p: Page): Page {
    if p.timer.Some? then p.(timers := p.timers - {p.timer.value}) else p
  }

  function SetTimer(p: Page, delay: nat): Page {
    p.(timer := Some(p.nextTimer), timers := p.timers[p.nextTimer := delay], nextTimer := p.nextTimer + 1)
  }

  function ScheduleReconnect(p: Page): Page {
    var a := Min(p.attempt + 1, 6);
    SetTimer(ClearTimer(p).(attempt := a), DelayMs(a))
  }

  function Retire(p: Page): Page {
    if p.ws.Some? && p.ws.value < |p.sockets| then
      p.(ws := None, sockets := p.sockets[p.ws.value := Socket(
           if p.sockets[p.ws.value].phase.Closed? then Closed else Closing, false)])
    else p.(ws := None)
  }

  function Connect(p: Page, urlOk: bool, socketOk: bool): Page {
    var q := Retire(ClearTimer(p).(timer := None));
    if !urlOk then q
    else if !socketOk then ScheduleReconnect(q)
    else q.(ws := Some(|q.sockets|), sockets := q.sockets + [Socket(Connecting, true)])
  }

  /** The page's own handler runs when it is still attached and the socket is the current one. */
  predicate Heard(p: Page, i: nat)
    requires i < |p.sockets|
  {
    p.sockets[i].attached && p.ws == Some(i)
  }

  function SetPhase(p: Page, i: nat, phase: Phase): Page
    requires i < |p.sockets|
  {
    p.(sockets := p.sockets[i := p.sockets[i].(phase := phase)])
  }

  /** What the browser can report next. */
  predicate Enabled(p: Page, e: Event) {
    match e
    case Fire(t, _, _) => t in p.timers
    case Opened(i) => i < |p.sockets| && p.sockets[i].phase.Connecting?
    case Message(i) => i < |p.sockets| && p.sockets[i].phase.Open?
    case Dropped(i, _) => i < |p.sockets| && !p.sockets[i].phase.Closed?
  }

  function Handle(p: Page, e: Event): Page
    requires Enabled(p, e)
  {
    match e
    case Fire(t, urlOk, socketOk) => Connect(p.(timers := p.timers - {t}), urlOk, socketOk)
    case Opened(i) =>
      var q := SetPhase(p, i, Open);
      if Heard(p, i) then q.(attempt := 0, down := false) else q
    case Message(i) => if Heard(p, i) then p.(painted := p.painted + [i]) else p
    case Dropped(i, code) =>
      var q := SetPhase(p, i, Closed);
      if !Heard(p, i) then q
      else
        var r := q.(ws := None, down := true);
        if code == POLICY then SetTimer(r, LOCK_RETRY_MS) else ScheduleReconnect(r)
  }

  /** The viewer's module variables, and the browser's view of its sockets and timeouts. */
  class Viewer {
    var sockets: seq<Socket>
    var ws: Option<nat>
    var reconnectTimer: Option<nat>
    var timers: map<nat, nat>
    var nextTimer: nat
    var reconnectAttempt: nat
    var wsDown: bool
    var painted: seq<nat>

    function Contents(): Page
      reads this
    {
      Page(sockets, ws, reconnectTimer, timers, nextTimer, reconnectAttempt, wsDown, painted)
    }

    constructor ()
      ensures Contents() == LOADED
    {
      sockets, ws, reconnectTimer, timers := [], None, None, map[];
      nextTimer, reconnectAttempt, wsDown, painted := 1, 0, false, [];
    }

    method SetTimeout(delay: nat) returns (id: nat)
      modifies this`timers, this`nextTimer
      ensures id == old(nextTimer) && nextTimer == id + 1 && timers == old(timers)[id := delay]
    {
      id := nextTimer;
      timers := timers[id := delay];
      nextTimer := nextTimer + 1;
    }

    method ConnectNow(urlOk: bool, socketOk: bool)
      modifies this
      ensures Contents() == Connect(old(Contents()), urlOk, socketOk)
    {
      if reconnectTimer.Some? {
        timers := timers - {reconnectTimer.value};
      }
      reconnectTimer := None;
      RetireSocket();
      if !urlOk { return; }
      if !socketOk {
        Schedule();
        return;
      }
      ws := Some(|sockets|);
      sockets := sockets + [Socket(Connecting, true)];
    }

    method RetireSocket()
      modifies this
      ensures Contents() == Retire(old(Contents()))
    {
      if ws.Some? && ws.value < |sockets| {
        var i := ws.value;
        sockets := sockets[i := Socket(if sockets[i].phase.Closed? then Closed else Closing, false)];
      }
      ws := None;
    }

    method Schedule()
      modifies this
      ensures Contents() == ScheduleReconnect(old(Contents()))
    {
      if reconnectTimer.Some? {
        timers := timers - {reconnectTimer.value};
      }
      reconnectAttempt := Min(reconnectAttempt + 1, 6);
      var id := SetTimeout(DelayMs(reconnectAttempt));
      reconnectTimer := Some(id);
    }

    method OnOpen(i: nat)
      requires Enabled(Contents(), Opened(i))
      modifies this
      ensures Contents() == Handle(old(Contents()), Opened(i))
    {
      var heard := Heard(Contents(), i);
      sockets := sockets[i := sockets[i].(phase := Open)];
      if !heard { return; }
      reconnectAttempt := 0;
      wsDown := false;
    }

    method OnClose(i: nat, code: nat)
      requires Enabled(Contents(), Dropped(i, code))
      modifies this
      ensures Contents() == Handle(old(Contents()), Dropped(i, code))
    {
      var heard := Heard(Contents(), i);
      sockets := sockets[i := sockets[i].(phase := Closed)];
      if !heard { return; }
      ws := None;
      wsDown := true;
      if code == POLICY {
        // Assigned without clearing: no timer can be pending while a socket is current.
        var id := SetTimeout(LOCK_RETRY_MS);
        reconnectTimer := Some(id);
        return;
      }
      Schedule();
    }
  }

  // ------------------------------------------------------------ reachable states

  /** One socket or one timer; nothing else alive; no banner over a working session. */
  ghost predicate Coherent(p: Page) {
    && (p.ws.Some? ==>
          && p.ws.value < |p.sockets| && p.sockets[p.ws.value].attached && !p.sockets[p.ws.value].phase.Closed?
          && p.timer.None? && p.timers == map[])
    && (p.ws.None? ==> p.timer.Some? && p.timers.Keys == {p.timer.value})
    && (forall i :: 0 <= i < |p.sockets| && p.ws != Some(i) ==> p.sockets[i].phase.Closed?)
    && (forall i :: 0 <= i < |p.sockets| && p.sockets[i].phase.Open? ==> !p.down)
    && (forall t :: t in p.timers ==> t < p.nextTimer && 1000 <= p.timers[t] <= 30_000)
    && p.attempt <= 6
  }

  lemma {:induction false} DelayBounds(attempt: nat)
    requires 0 < attempt <= 6
    ensures 1000 <= DelayMs(attempt) <= 30_000
    ensures attempt < 6 ==> DelayMs(attempt) < DelayMs(attempt + 1)
  {
    assert Pow2(0) == 1 && Pow2(1) == 2 && Pow2(2) == 4 && Pow2(3) == 8 && Pow2(4) == 16 && Pow2(5) == 32;
  }

  /** Connecting with nothing pending and every socket dead leaves the page coherent, provided the URL is valid. */
  lemma ConnectCoheres(p: Page, urlOk: bool, socketOk: bool)
    requires p.ws.None? && ClearTimer(p).timers == map[]
    requires forall i :: 0 <= i < |p.sockets| ==> p.sockets[i].phase.Closed?
    requires p.attempt <= 6
    ensures Coherent(Connect(p, urlOk, socketOk)) <==> urlOk
  {
    var q := Connect(p, urlOk, socketOk);
    if urlOk && !socketOk {
      DelayBounds(Min(p.attempt + 1, 6));
      assert q.timers.Keys == {q.timer.value};
    }
  }

  /** The first connect of a page. */
  lemma FirstConnectCoheres(socketOk: bool)
    ensures Coherent(Connect(LOADED, true, socketOk))
  {
    ConnectCoheres(LOADED, true, socketOk);
  }

  /** Every event keeps the page coherent, as long as reconnects find a valid URL. */
  lemma EventCoheres(p: Page, e: Event)
    requires Coherent(p) && Enabled(p, e)
    ensures Coherent(Handle(p, e)) <==> (e.Fire? ==> e.urlOk)
  {
    match e
    case Fire(t, urlOk, socketOk) =>
      assert p.ws.None?;
      var q := p.(timers := p.timers - {t});
      assert q.timers == map[] && ClearTimer(q).timers == map[];
      ConnectCoheres(q, urlOk, socketOk);
    case Opened(i) =>
      assert p.ws == Some(i);
    case Message(i) =>
    case Dropped(i, code) =>
      assert p.ws == Some(i);
      var q := SetPhase(p, i, Closed).(ws := None, down := true);
      assert ClearTimer(q) == q && q.timers == map[];
      DelayBounds(Min(p.attempt + 1, 6));
      assert Handle(p, e).timers.Keys == {p.nextTimer};
  }

  /** A page after a sequence of events, when each was possible. */
  ghost predicate Reaches(p: Page, events: seq<Event>, q: Page)
    decreases |events|
  {
    if events == [] then p == q
    else Enabled(p, events[0]) && Reaches(Handle(p, events[0]), events[1..], q)
  }

  /** Whatever the network does, every reachable page has exactly one of a live socket and a pending reconnect. */
  lemma {:induction false} ReachableCoheres(p: Page, events: seq<Event>, q: Page)
    requires Coherent(p) && Reaches(p, events, q)
    requires forall e :: e in events && e.Fire? ==> e.urlOk
    ensures Coherent(q)
    decreases |events|
  {
    if events != [] {
      EventCoheres(p, events[0]);
      ReachableCoheres(Handle(p, events[0]), events[1..], q);
    }
  }

  /** In a coherent page the session is reported down only when no socket is open, and only one reconnect can fire. */
  lemma CoherentMeaning(p: Page)
    requires Coherent(p)
    ensures p.ws.Some? <==> |p.timers| == 0
    ensures |p.timers| <= 1
    ensures forall i, j :: 0 <= i < j < |p.sockets| ==> p.sockets[i].phase.Closed? || p.sockets[j].phase.Closed?
    ensures p.down ==> forall i :: 0 <= i < |p.sockets| ==> !p.sockets[i].phase.Open?
  {
    if p.ws.None? {
      assert |p.timers.Keys| == 1;
    }
  }

  /** A late event of a replaced socket changes nothing but that socket, in every state. */
  lemma LateEventsAreInert(p: Page, e: Event)
    requires Enabled(p, e) && !e.Fire? && p.ws != Some(e.socket)
    ensures var q := Handle(p, e);
            && q == p.(sockets := q.sockets) && |q.sockets| == |p.sockets|
            && forall i :: 0 <= i < |p.sockets| && i != e.socket ==> q.sockets[i] == p.sockets[i]
  {
  }

  /** Retiring an open socket takes its handlers off: nothing it reports later is heard. */
  lemma RetiredIsNeverHeard(p: Page, socketOk: bool)
    requires p.ws.Some? && p.ws.value < |p.sockets|
    ensures var q := Connect(p, true, socketOk);
            p.ws.value < |q.sockets| && !q.sockets[p.ws.value].attached && q.ws != p.ws && !Heard(q, p.ws.value)
  {
  }

  /** A URL that cannot be built strands the page: no socket, no timer, and no event ever again. */
  lemma BadUrlStrands(p: Page, e: Event)
    requires Coherent(p) && Enabled(p, e) && e.Fire? && !e.urlOk
    ensures var q := Handle(p, e);
            q.ws.None? && q.timers == map[] && forall f: Event :: !Enabled(q, f)
  {
    assert p.ws.None?;
    assert (p.timers - {e.timer}) == map[];
  }

  // ------------------------------------------------------------ what a failure costs

  /** The wait before the first, second, ... attempt after a failure. */
  const WAITS: seq<nat> := [1_000, 2_000, 4_000, 8_000, 16_000, 30_000]

  lemma WaitsAreDelays(attempt: nat)
    requires 1 <= attempt <= 6
    ensures DelayMs(attempt) == WAITS[attempt - 1]
  {
    assert Pow2(0) == 1 && Pow2(1) == 2 && Pow2(2) == 4 && Pow2(3) == 8 && Pow2(4) == 16 && Pow2(5) == 32;
  }

  /** The page waits, and for nothing else, `delay` milliseconds. */
  ghost predicate WaitsFor(p: Page, delay: nat) {
    p.ws.None? && p.timer.Some? && p.timers == map[p.timer.value := delay]
  }

  /** A session can end at any moment, and is then down; a locked tab is retried in 30 s, others by the next wait. */
  lemma FailureWaits(p: Page, i: nat, code: nat)
    requires Coherent(p) && p.ws == Some(i)
    ensures Enabled(p, Dropped(i, code))
    ensures var q := Handle(p, Dropped(i, code));
      && q.down && q.painted == p.painted && q.sockets[i].phase.Closed?
      && (code == 1008 ==> WaitsFor(q, 30_000) && q.attempt == p.attempt)
      && (code != 1008 ==>
            q.attempt == (if p.attempt < 6 then p.attempt + 1 else 6) && WaitsFor(q, WAITS[q.attempt - 1]))
  {
    WaitsAreDelays(if p.attempt < 6 then p.attempt + 1 else 6);
  }

  /** A socket that cannot be made is a failure too. */
  lemma NoSocketWaits(p: Page, t: nat)
    requires Coherent(p) && Enabled(p, Fire(t, true, false))
    ensures var q := Handle(p, Fire(t, true, false));
      q.attempt == (if p.attempt < 6 then p.attempt + 1 else 6) && WaitsFor(q, WAITS[q.attempt - 1]) && q.down == p.down
  {
    assert p.ws.None? && p.timers - {t} == map[];
    WaitsAreDelays(if p.attempt < 6 then p.attempt + 1 else 6);
  }

  /** A session that opens is no longer down and starts the waits over; what it sends is painted. */
  lemma OpenIsUp(p: Page, i: nat)
    requires Coherent(p) && p.ws == Some(i)
    ensures p.sockets[i].phase.Connecting? ==>
              && Enabled(p, Opened(i))
              && var q := Handle(p, Opened(i));
                 !q.down && q.attempt == 0 && q.ws == Some(i) && q.sockets[i].phase.Open?
    ensures p.sockets[i].phase.Open? ==>
              && Enabled(p, Message(i)) && Handle(p, Message(i)) == p.(painted := p.painted + [i])
  {
  }

  /** Failures of a run: sessions lost to anything but the lock, and sockets that could not be made. */
  function Failures(events: seq<Event>): nat {
    if events == [] then 0
    else
      (match events[0] case Dropped(_, code) => if code == 1008 then 0 else 1
                       case Fire(_, _, ok) => if ok then 0 else 1
                       case _ => 0)
      + Failures(events[1..])
  }

  /** Until a session opens, the attempts count the failures, up to six. */
  lemma {:induction false} AttemptsCountFailures(p: Page, events: seq<Event>, q: Page)
    requires Coherent(p) && Reaches(p, events, q)
    requires forall e :: e in events ==> !e.Opened? && (e.Fire? ==> e.urlOk)
    ensures Coherent(q)
    ensures q.attempt == if p.attempt + Failures(events) < 6 then p.attempt + Failures(events) else 6
    decreases |events|
  {
    if events != [] {
      var e := events[0];
      EventCoheres(p, e);
      match e {
        case Dropped(i, code) =>
          assert p.ws == Some(i);
          FailureWaits(p, i, code);
        case Fire(t, _, ok) => if !ok { NoSocketWaits(p, t); }
        case _ =>
      }
      AttemptsCountFailures(Handle(p, e), events[1..], q);
    }
  }

  /** From every coherent page a session can come up again: the one timer fires, or the live socket opens. */
  lemma CanComeUp(p: Page) returns (events: seq<Event>, q: Page)
    requires Coherent(p)
    ensures Reaches(p, events, q) && Coherent(q) && |events| <= 2
    ensures q.ws.Some? && (q.sockets[q.ws.value].phase.Closing? || (q.sockets[q.ws.value].phase.Open? && !q.down))
  {
    if p.ws.None? {
      var fire := Fire(p.timer.value, true, true);
      var next := Handle(p, fire);
      EventCoheres(p, fire);
      var up := Opened(|p.sockets|);
      EventCoheres(next, up);
      q := Handle(next, up);
      events := [fire, up];
      assert events[1..] == [up] && [up][1..] == [];
    } else if p.sockets[p.ws.value].phase.Connecting? {
      var up := Opened(p.ws.value);
      EventCoheres(p, up);
      q := Handle(p, up);
      events := [up];
      assert events[1..] == [];
    } else {
      events, q := [], p;
    }
  }
}
