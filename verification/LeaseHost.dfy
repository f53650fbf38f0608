/** The host registry: loaded on first use, collected on every call, written back after the lock is dropped. */
module LeaseHost {
  import opened Text
  import opened Claims
  import opened LeaseHistory

  /** Memory, the file, and the writes that have left the lock but not reached the file. */
  datatype HostState = HostState(mem: Option<Table>, disk: Option<Table>, pending: seq<Table>) {

    /** What a reload would read; a missing file is an empty registry. */
    function DiskView(): Table {
      if disk.Some? then disk.value else EMPTY
    }

    function Loaded(): Table {
      if mem.Some? then mem.value else DiskView()
    }
  }

  datatype HostEvent =
    | Call(op: Op, gcAt: nat)
    | Land(i: nat)
    | Restart

  const BOOT := HostState(None, None, [])

  ghost function CallStep(h: HostState, op: Op, gcAt: nat): (HostState, Reply) {
    var before := GcStep(h.Loaded(), gcAt);
    var (after, reply) := Apply(before, op);
    (HostState(Some(after), h.disk, if after != before then h.pending + [after] else h.pending), reply)
  }

  ghost function HostStep(h: HostState, e: HostEvent): HostState {
    match e
    case Call(op, gcAt) => CallStep(h, op, gcAt).0
    case Land(i) =>
      if i < |h.pending| then h.(disk := Some(h.pending[i]), pending := h.pending[..i] + h.pending[i + 1..]) else h
    case Restart => HostState(None, h.disk, [])
  }

  /** The host as the daemon holds it: a registry behind a lock, and a file. */
  class Host {
    var reg: Registry?
    var disk: Option<Table>
    var pending: seq<Table>

    function Contents(): HostState
      reads this, reg
    {
      HostState(if reg == null then None else Some(reg.Contents()), disk, pending)
    }

    constructor ()
      ensures Contents() == BOOT
    {
      reg, disk, pending := null, None, [];
    }

    method WithRegistry(op: Op, gcAt: nat) returns (reply: Reply)
      modifies this, reg
      ensures (Contents(), reply) == CallStep(old(Contents()), op, gcAt)
      ensures reg != null && (reg == old(reg) || fresh(reg))
    {
      if reg == null {
        reg := new Registry(if disk.Some? then disk.value else EMPTY);
      }
      reg.Gc(gcAt);
      var before := reg.Contents();
      reply := Serve(reg, op);
      if reg.Contents() != before {
        pending := pending + [reg.Contents()];
      }
    }

    /** A write that left the lock reaches the file. */
    method LandWrite(i: nat)
      modifies this
      ensures Contents() == HostStep(old(Contents()), Land(i))
    {
      if i < |pending| {
        disk, pending := Some(pending[i]), pending[..i] + pending[i + 1..];
      }
    }
  }

  // ------------------------------------------------------------ runs

  ghost function HostAfter(events: seq<HostEvent>): HostState
    decreases |events|
  {
    if events == [] then BOOT else HostStep(HostAfter(events[..|events| - 1]), events[|events| - 1])
  }

  /** The requests of a run, in the order they held the lock. */
  ghost function Calls(events: seq<HostEvent>): seq<Op>
    decreases |events|
  {
    if events == [] then []
    else Calls(events[..|events| - 1]) + (match events[|events| - 1] case Call(op, _) => [op] case _ => [])
  }

  ghost function Replies(events: seq<HostEvent>): seq<Reply>
    decreases |events|
  {
    if events == [] then []
    else
      var before := events[..|events| - 1];
      Replies(before) +
      (match events[|events| - 1] case Call(op, gcAt) => [CallStep(HostAfter(before), op, gcAt).1] case _ => [])
  }

  /** The last collection time. */
  ghost function Clock(events: seq<HostEvent>): nat
    decreases |events|
  {
    if events == [] then 0
    else match events[|events| - 1] case Call(_, gcAt) => gcAt case _ => Clock(events[..|events| - 1])
  }

  /** Writes reach the file in lock order, and none is lost to a restart. */
  ghost predicate InLockOrder(events: seq<HostEvent>)
    decreases |events|
  {
    events == [] ||
    (var before := events[..|events| - 1];
     && InLockOrder(before)
     && match events[|events| - 1]
        case Call(_, _) => true
        case Land(i) => i == 0 < |HostAfter(before).pending|
        case Restart => HostAfter(before).pending == [])
  }

  /**
    The assumptions of the refinement: writes in lock order, collections whose clock does not go back and is not
    behind the caller's, and no request disturbed by a lease that lapses between its two clock reads. Callers may be
    served out of the order of their own reads.
    */
  ghost predicate Disciplined(events: seq<HostEvent>)
    decreases |events|
  {
    events == [] ||
    (var before := events[..|events| - 1];
     var h := HostAfter(before);
     && Disciplined(before)
     && match events[|events| - 1]
        case Call(op, gcAt) => Timely(After(EMPTY, Calls(before)), op, gcAt, Clock(before))
        case Land(i) => i == 0 < |h.pending|
        case Restart => h.pending == [])
  }

  ghost predicate Timely(t: Table, op: Op, gcAt: nat, clock: nat) {
    clock <= gcAt && op.at <= gcAt && !Disturbed(t, op, gcAt)
  }

  /** What the file will say once every write has landed. */
  ghost function LastWritten(h: HostState): Table {
    if h.pending != [] then h.pending[|h.pending| - 1] else h.DiskView()
  }

  /** The host stands for one registry that never collects, never reloads and never stops. */
  ghost predicate StandsFor(h: HostState, t: Table, now: nat) {
    && Same(h.Loaded(), t, now)
    && Same(LastWritten(h), t, now)
    && (h.mem.None? ==> h.pending == [])
  }

  ghost predicate Sound(h: HostState) {
    && h.Loaded().WellFormed()
    && h.DiskView().WellFormed()
    && forall i :: 0 <= i < |h.pending| ==> h.pending[i].WellFormed()
  }

  lemma StepSound(h: HostState, e: HostEvent)
    requires Sound(h)
    ensures Sound(HostStep(h, e))
  {
    if e.Call? {
      ApplyWellFormed(h.Loaded(), Gc(e.gcAt));
      ApplyWellFormed(GcStep(h.Loaded(), e.gcAt), e.op);
    }
  }

  /** Two tables that cannot be told apart are the same once collected. */
  lemma SameCollected(m: Table, t: Table, clock: nat, gcAt: nat)
    requires Same(m, t, clock) && clock <= gcAt
    ensures GcStep(m, gcAt) == GcStep(t, gcAt)
  {
    SameLater(m, t, clock, gcAt);
    assert m.Live(gcAt) == t.Live(gcAt);
  }

  /** Collect-then-serve against the reference: the answer is the same exactly when the reference is not disturbed. */
  lemma ServeSameIff(m: Table, t: Table, op: Op, gcAt: nat, clock: nat)
    requires t.WellFormed() && Same(m, t, clock) && clock <= gcAt && op.at <= gcAt
    ensures Apply(GcStep(m, gcAt), op).1 == Apply(t, op).1 <==> !Disturbed(t, op, gcAt)
  {
    SameCollected(m, t, clock, gcAt);
    LateGcIff(t, op, gcAt);
  }

  lemma ServeSame(m: Table, t: Table, op: Op, gcAt: nat, clock: nat)
    requires t.WellFormed() && Same(m, t, clock) && Timely(t, op, gcAt, clock)
    ensures Apply(GcStep(m, gcAt), op).1 == Apply(t, op).1
    ensures Same(Apply(GcStep(m, gcAt), op).0, Apply(t, op).0, gcAt)
  {
    ServeSameIff(m, t, op, gcAt, clock);
    SameCollected(m, t, clock, gcAt);
    LateGcSame(t, op, gcAt);
  }

  /** A call that changes nothing leaves the file as good as it was. */
  lemma UnchangedSame(last: Table, m: Table, t: Table, t': Table, gcAt: nat, clock: nat)
    requires Same(last, t, clock) && Same(m, t, clock) && clock <= gcAt && Same(GcStep(m, gcAt), t', gcAt)
    ensures Same(last, t', gcAt)
  {
    SameLater(last, t, clock, gcAt);
    SameLater(m, t, clock, gcAt);
    GcSame(m, m, gcAt);
  }

  lemma CallStandsFor(h: HostState, t: Table, op: Op, gcAt: nat, clock: nat)
    requires t.WellFormed() && StandsFor(h, t, clock) && Timely(t, op, gcAt, clock)
    ensures CallStep(h, op, gcAt).1 == Apply(t, op).1
    ensures StandsFor(CallStep(h, op, gcAt).0, Apply(t, op).0, gcAt)
  {
    var m := h.Loaded();
    var before := GcStep(m, gcAt);
    ServeSame(m, t, op, gcAt, clock);
    if Apply(before, op).0 == before {
      UnchangedSame(LastWritten(h), m, t, Apply(t, op).0, gcAt, clock);
    }
    StandsAfterCall(h, before, Apply(before, op).0, Apply(t, op).0, gcAt);
  }

  lemma StandsAfterCall(h: HostState, before: Table, after: Table, t: Table, now: nat)
    requires Same(after, t, now) && (after == before ==> Same(LastWritten(h), t, now))
    ensures var pending := if after != before then h.pending + [after] else h.pending;
            StandsFor(HostState(Some(after), h.disk, pending), t, now)
  {
  }

  lemma MoveStandsFor(h: HostState, t: Table, e: HostEvent, clock: nat)
    requires StandsFor(h, t, clock) && !e.Call?
    requires e.Land? ==> e.i == 0 < |h.pending|
    requires e.Restart? ==> h.pending == []
    ensures StandsFor(HostStep(h, e), t, clock)
  {
  }

  lemma {:induction false} HostStandsFor(events: seq<HostEvent>)
    requires Disciplined(events)
    ensures StandsFor(HostAfter(events), After(EMPTY, Calls(events)), Clock(events)) && Sound(HostAfter(events))
    decreases |events|
  {
    if events != [] {
      var n := |events| - 1;
      var before := events[..n];
      HostStandsFor(before);
      var h, ops := HostAfter(before), Calls(before);
      StepSound(h, events[n]);
      if events[n].Call? {
        AfterWellFormed(EMPTY, ops);
        CallStandsFor(h, After(EMPTY, ops), events[n].op, events[n].gcAt, Clock(before));
        RepliesSnoc(ops, events[n].op);
      } else {
        assert Calls(events) == ops;
        MoveStandsFor(h, After(EMPTY, ops), events[n], Clock(before));
      }
    }
  }

  /** No request is later than the last collection. */
  lemma {:induction false} CallsAreTimely(events: seq<HostEvent>)
    requires Disciplined(events)
    ensures forall op :: op in Calls(events) ==> op.at <= Clock(events)
    decreases |events|
  {
    if events != [] {
      CallsAreTimely(events[..|events| - 1]);
    }
  }

  ghost predicate RepliesMatch(replies: seq<Reply>, ops: seq<Op>) {
    |replies| == |ops| && forall i :: 0 <= i < |ops| ==> replies[i] == ReplyAt(EMPTY, ops, i)
  }

  lemma RepliesMatchSnoc(replies: seq<Reply>, ops: seq<Op>, reply: Reply, op: Op)
    requires RepliesMatch(replies, ops) && reply == Apply(After(EMPTY, ops), op).1
    ensures RepliesMatch(replies + [reply], ops + [op])
  {
    RepliesSnoc(ops, op);
  }

  lemma {:induction false} RepliesAreHistory(events: seq<HostEvent>)
    requires Disciplined(events)
    ensures RepliesMatch(Replies(events), Calls(events))
    decreases |events|
  {
    if events != [] {
      var n := |events| - 1;
      var before := events[..n];
      RepliesAreHistory(before);
      HostStandsFor(before);
      var h, ops := HostAfter(before), Calls(before);
      if events[n].Call? {
        AfterWellFormed(EMPTY, ops);
        CallStandsFor(h, After(EMPTY, ops), events[n].op, events[n].gcAt, Clock(before));
        RepliesMatchSnoc(Replies(before), ops, CallStep(h, events[n].op, events[n].gcAt).1, events[n].op);
      } else {
        assert Calls(events) == ops && Replies(events) == Replies(before);
      }
    }
  }

  /** The clock of the callers does not go back. */
  ghost predicate ClockOrder(ops: seq<Op>) {
    forall i, j :: 0 <= i <= j < |ops| ==> ops[i].at <= ops[j].at
  }

  /** Refinement: the host answers every request as one registry would that was never collected nor restarted. */
  lemma HostRefinesRegistry(events: seq<HostEvent>)
    requires Disciplined(events)
    ensures StandsFor(HostAfter(events), After(EMPTY, Calls(events)), Clock(events)) && Sound(HostAfter(events))
    ensures |Replies(events)| == |Calls(events)|
    ensures forall i :: 0 <= i < |Calls(events)| ==> Replies(events)[i] == ReplyAt(EMPTY, Calls(events), i)
    ensures ClockOrder(Calls(events)) ==> ClockedTo(Calls(events), Clock(events))
  {
    CallsAreTimely(events);
    HostStandsFor(events);
    RepliesAreHistory(events);
  }

  lemma RepliesSnoc(ops: seq<Op>, op: Op)
    ensures After(EMPTY, ops + [op]) == Apply(After(EMPTY, ops), op).0
    ensures ReplyAt(EMPTY, ops + [op], |ops|) == Apply(After(EMPTY, ops), op).1
    ensures forall i :: 0 <= i < |ops| ==> ReplyAt(EMPTY, ops + [op], i) == ReplyAt(EMPTY, ops, i)
  {
    assert (ops + [op])[..|ops|] == ops;
    forall i | 0 <= i < |ops| ensures ReplyAt(EMPTY, ops + [op], i) == ReplyAt(EMPTY, ops, i) {
      assert (ops + [op])[..i] == ops[..i];
    }
  }

  /**
    Restart safety: across any number of restarts, a lease goes to another holder only after the first tenure has
    expired, was given back, or was renewed: in the order of service always, and by the clock of the taker when
    callers are served in the order of their clocks.
    */
  lemma RestartSafe(events: seq<HostEvent>, i: nat, j: nat)
    requires Disciplined(events)
    requires i < j < |Replies(events)| && Replies(events)[i].Granted? && Replies(events)[j].Granted?
    ensures |Calls(events)| == |Replies(events)| && ReplyAt(EMPTY, Calls(events), i) == Replies(events)[i]
    ensures Grants(EMPTY, Calls(events)) <= U64_MAX ==> Replies(events)[i].claim.fence < Replies(events)[j].claim.fence
    ensures Replies(events)[i].claim.key == Replies(events)[j].claim.key
            && Replies(events)[i].claim.holder != Replies(events)[j].claim.holder ==>
            && OverInTurn(EMPTY, Calls(events), i, j)
            && (ClockOrder(Calls(events)) ==> OverBefore(EMPTY, Calls(events), i, j))
  {
    HostRefinesRegistry(events);
    var ops := Calls(events);
    FencesClimbIff(EMPTY, ops);
    assert ReplyAt(EMPTY, ops, i) == Replies(events)[i] && ReplyAt(EMPTY, ops, j) == Replies(events)[j];
    if Replies(events)[i].claim.key == Replies(events)[j].claim.key
       && Replies(events)[i].claim.holder != Replies(events)[j].claim.holder {
      TenuresTakeTurns(EMPTY, ops, i, j);
      if ClockOrder(ops) {
        TenuresDisjoint(EMPTY, ops, i, j, Clock(events));
      }
    }
  }

  // ------------------------------------------------------------ fences across restarts

  function GrantCount(replies: seq<Reply>): nat {
    if replies == [] then 0
    else GrantCount(replies[..|replies| - 1]) + (if replies[|replies| - 1].Granted? then 1 else 0)
  }

  lemma GrantCountSnoc(replies: seq<Reply>, r: Reply)
    ensures GrantCount(replies + [r]) == GrantCount(replies) + (if r.Granted? then 1 else 0)
  {
    assert (replies + [r])[..|replies|] == replies;
  }

  lemma {:induction false} GrantCountGrows(replies: seq<Reply>, n: nat)
    requires n <= |replies|
    ensures GrantCount(replies[..n]) <= GrantCount(replies) <= |replies|
  {
    if n == |replies| {
      assert replies[..n] == replies;
      if n > 0 { GrantCountGrows(replies[..n - 1], n - 1); }
    } else {
      assert replies[..|replies| - 1][..n] == replies[..n];
      GrantCountGrows(replies[..|replies| - 1], n);
    }
  }

  /** Each grant's fence counts the grants up to it. */
  ghost predicate FencesCount(replies: seq<Reply>) {
    forall i :: 0 <= i < |replies| && replies[i].Granted? ==> replies[i].claim.fence == GrantCount(replies[..i + 1])
  }

  lemma FencesCountSnoc(replies: seq<Reply>, r: Reply)
    requires FencesCount(replies) && (r.Granted? ==> r.claim.fence == GrantCount(replies) + 1)
    ensures FencesCount(replies + [r])
  {
    var all := replies + [r];
    GrantCountSnoc(replies, r);
    forall i | 0 <= i < |all| && all[i].Granted? ensures all[i].claim.fence == GrantCount(all[..i + 1]) {
      if i < |replies| {
        assert all[..i + 1] == replies[..i + 1];
      } else {
        assert all[..i + 1] == all;
      }
    }
  }

  lemma FencesCountClimb(replies: seq<Reply>, i: nat, j: nat)
    requires FencesCount(replies) && i < j < |replies| && replies[i].Granted? && replies[j].Granted?
    ensures replies[i].claim.fence < replies[j].claim.fence
  {
    var upTo := replies[..j + 1];
    assert upTo[..j] == replies[..j] && replies[..j][..i + 1] == replies[..i + 1];
    GrantCountGrows(replies[..j], i + 1);
  }

  /** One call moves the counter by one exactly when it grants, and then queues a write. */
  lemma CallCounts(h: HostState, op: Op, gcAt: nat)
    requires h.Loaded().nextFence < U64_MAX
    ensures var (h', r) := CallStep(h, op, gcAt);
      && h'.Loaded().nextFence == h.Loaded().nextFence + (if r.Granted? then 1 else 0)
      && (r.Granted? ==> r.claim.fence == h.Loaded().nextFence + 1)
      && h'.disk == h.disk && h'.mem.Some?
      && (h'.pending == h.pending + [h'.Loaded()] || (h'.pending == h.pending && !r.Granted?))
  {
    StepCounts(GcStep(h.Loaded(), gcAt), op);
  }

  /** Memory and the last write agree on the counter, which counts the grants. */
  ghost predicate Counted(h: HostState, n: nat) {
    h.Loaded().nextFence == n && LastWritten(h).nextFence == n && (h.mem.None? ==> h.pending == [])
  }

  lemma CallCounted(h: HostState, op: Op, gcAt: nat, n: nat)
    requires Counted(h, n) && n < U64_MAX
    ensures var (h', r) := CallStep(h, op, gcAt);
      Counted(h', n + if r.Granted? then 1 else 0) && (r.Granted? ==> r.claim.fence == n + 1)
  {
    CallCounts(h, op, gcAt);
  }

  lemma MoveCounted(h: HostState, e: HostEvent, n: nat)
    requires Counted(h, n) && (if e.Land? then e.i == 0 < |h.pending| else e.Restart? && h.pending == [])
    ensures Counted(HostStep(h, e), n)
  {
  }

  lemma {:induction false} HostCounts(events: seq<HostEvent>)
    requires InLockOrder(events) && |events| <= U64_MAX
    ensures Counted(HostAfter(events), GrantCount(Replies(events))) && FencesCount(Replies(events))
    ensures |Replies(events)| <= |events|
    decreases |events|
  {
    if events != [] {
      var n := |events| - 1;
      var before := events[..n];
      HostCounts(before);
      GrantCountGrows(Replies(before), |Replies(before)|);
      var h, count := HostAfter(before), GrantCount(Replies(before));
      if events[n].Call? {
        var r := CallStep(h, events[n].op, events[n].gcAt).1;
        CallCounted(h, events[n].op, events[n].gcAt, count);
        GrantCountSnoc(Replies(before), r);
        FencesCountSnoc(Replies(before), r);
      } else {
        MoveCounted(h, events[n], count);
        assert Replies(events) == Replies(before);
      }
    }
  }

  /**
    Fences climb across any number of restarts as long as writes land in lock order before each of them, with no
    assumption on any clock, for the first 2^64 - 1 events.
    */
  lemma FencesClimbAcrossRestarts(events: seq<HostEvent>, i: nat, j: nat)
    requires InLockOrder(events) && |events| <= U64_MAX
    requires i < j < |Replies(events)| && Replies(events)[i].Granted? && Replies(events)[j].Granted?
    ensures Replies(events)[i].claim.fence < Replies(events)[j].claim.fence
  {
    HostCounts(events);
    FencesCountClimb(Replies(events), i, j);
  }

  /** A restart goes unnoticed if and only if the file tells the same leases and the same fence as memory. */
  lemma RestartExact(h: HostState, now: nat)
    requires h.Loaded().WellFormed() && h.DiskView().WellFormed()
    ensures Same(h.DiskView(), h.Loaded(), now) <==>
            forall op: Op :: op.at == now ==> CallStep(HostStep(h, Restart), op, now).1 == CallStep(h, op, now).1
  {
    var d, m := h.DiskView(), h.Loaded();
    forall op: Op | op.at == now
      ensures CallStep(HostStep(h, Restart), op, now).1 == Apply(d, op).1
      ensures CallStep(h, op, now).1 == Apply(m, op).1
    {
      LateGcIff(d, op, now);
      LateGcIff(m, op, now);
    }
    SameIsObservable(d, m, now);
    if forall op: Op :: op.at == now ==> CallStep(HostStep(h, Restart), op, now).1 == CallStep(h, op, now).1 {
      forall op: Op | op.at == now ensures Apply(d, op).1 == Apply(m, op).1 {
        assert CallStep(HostStep(h, Restart), op, now).1 == CallStep(h, op, now).1;
      }
    }
  }

  // ------------------------------------------------------------ what a restart can break

  /** The file knows the lease on `key` that memory has: live, and the same holder's. */
  ghost predicate FileKnows(h: HostState, key: string, now: nat)
    requires key in h.Loaded().claims
  {
    var d := h.DiskView();
    key in d.claims && d.claims[key].LiveAt(now) && d.claims[key].holder == h.Loaded().claims[key].holder
  }

  /** After a restart, a request hands `key` to somebody other than its holder. */
  ghost predicate HandsOver(h: HostState, key: string, now: nat, op: Op)
    requires key in h.Loaded().claims
  {
    var r := CallStep(HostStep(h, Restart), op, now).1;
    op.at == now && r.Granted? && r.claim.key == key && r.claim.holder != h.Loaded().claims[key].holder
  }

  /** A restart can hand a live lease to another holder if and only if the file does not know the lease. */
  lemma HandoverIff(h: HostState, key: string, now: nat)
    requires h.Loaded().WellFormed() && h.DiskView().WellFormed()
    requires key in h.Loaded().claims && h.Loaded().claims[key].LiveAt(now)
    ensures (exists op: Op :: HandsOver(h, key, now, op)) <==> !FileKnows(h, key, now)
  {
    if op: Op :| HandsOver(h, key, now, op) {
      RestartServes(h, op, now);
      NoHandover(h, key, now, op);
    }
    if !FileKnows(h, key, now) {
      var op := HandoverRequest(h, key, now);
    }
  }

  lemma RestartServes(h: HostState, op: Op, now: nat)
    requires op.at == now && h.DiskView().WellFormed()
    ensures CallStep(HostStep(h, Restart), op, now).1 == Apply(h.DiskView(), op).1
  {
    LateGcIff(h.DiskView(), op, now);
  }

  lemma NoHandover(h: HostState, key: string, now: nat, op: Op)
    requires key in h.Loaded().claims && op.at == now && Apply(h.DiskView(), op).1.Granted?
    requires var c := Apply(h.DiskView(), op).1.claim; c.key == key && c.holder != h.Loaded().claims[key].holder
    ensures !FileKnows(h, key, now)
  {
  }

  lemma PlainHolders()
    ensures Sanitize("a", MAX_HOLDER) == Ok("a") && Sanitize("b", MAX_HOLDER) == Ok("b")
  {
    assert Trim("a") == "a" && Trim("b") == "b";
  }

  lemma FreeForGrant(t: Table, key: string, holder: string, now: nat)
    requires Sanitize(key, MAX_KEY) == Ok(key) && Sanitize(holder, MAX_HOLDER) == Ok(holder)
    requires key in t.claims && t.claims[key].LiveAt(now) ==> t.claims[key].holder == holder
    ensures var r := Apply(t, Grant(key, holder, 0, now)).1;
            r.Granted? && r.claim.key == key && r.claim.holder == holder
  {
  }

  /** Whoever the file still names may renew, and if it names nobody, anybody may ask. */
  lemma HandoverRequest(h: HostState, key: string, now: nat) returns (op: Op)
    requires h.Loaded().WellFormed() && h.DiskView().WellFormed()
    requires key in h.Loaded().claims && !FileKnows(h, key, now)
    ensures HandsOver(h, key, now, op)
  {
    var d, holder := h.DiskView(), h.Loaded().claims[key].holder;
    var other := if key in d.claims && d.claims[key].LiveAt(now) then d.claims[key].holder
                 else if holder == "a" then "b" else "a";
    PlainHolders();
    FreeForGrant(d, key, other, now);
    op := Grant(key, other, 0, now);
    RestartServes(h, op, now);
  }

  /** While the counter has not wrapped, the fences issued in a history are one up to the counter. */
  lemma IssuedFences(ops: seq<Op>, f: nat)
    requires Grants(EMPTY, ops) <= U64_MAX
    ensures After(EMPTY, ops).nextFence == Grants(EMPTY, ops)
    ensures (exists i :: 0 <= i < |ops| && ReplyAt(EMPTY, ops, i).Granted? && ReplyAt(EMPTY, ops, i).claim.fence == f)
       <==> 0 < f <= After(EMPTY, ops).nextFence
  {
    CounterCounts(EMPTY, ops);
    CounterBelow(0, Grants(EMPTY, ops));
    if i :| 0 <= i < |ops| && ReplyAt(EMPTY, ops, i).Granted? && ReplyAt(EMPTY, ops, i).claim.fence == f {
      FenceInRange(ops, i);
    }
    if 0 < f <= Grants(EMPTY, ops) {
      var i := FenceIssued(ops, f);
    }
  }

  lemma FenceInRange(ops: seq<Op>, i: nat)
    requires Grants(EMPTY, ops) <= U64_MAX && i < |ops| && ReplyAt(EMPTY, ops, i).Granted?
    ensures 0 < ReplyAt(EMPTY, ops, i).claim.fence <= Grants(EMPTY, ops)
  {
    FenceBelow(EMPTY, ops, i);
    FenceCounts(EMPTY, ops, i);
    GrantsMonotone(EMPTY, ops, i + 1, |ops|);
    assert ops[..|ops|] == ops;
  }

  lemma FenceIssued(ops: seq<Op>, f: nat) returns (i: nat)
    requires 0 < f <= Grants(EMPTY, ops) <= U64_MAX
    ensures i < |ops| && ReplyAt(EMPTY, ops, i).Granted? && ReplyAt(EMPTY, ops, i).claim.fence == f
  {
    i := GrantExists(EMPTY, ops, f);
    FenceCounts(EMPTY, ops, i);
    CounterBelow(0, f);
  }

  /** A grant after the restart repeats a fence already issued if and only if the file's counter is behind memory's. */
  lemma RepeatedFenceIff(h: HostState, ops: seq<Op>, op: Op, gcAt: nat)
    requires Grants(EMPTY, ops) <= U64_MAX && h.Loaded().nextFence == After(EMPTY, ops).nextFence
    requires h.DiskView().nextFence < U64_MAX && CallStep(HostStep(h, Restart), op, gcAt).1.Granted?
    ensures (exists i :: 0 <= i < |ops| && ReplyAt(EMPTY, ops, i).Granted? &&
               ReplyAt(EMPTY, ops, i).claim.fence == CallStep(HostStep(h, Restart), op, gcAt).1.claim.fence)
       <==> h.DiskView().nextFence < h.Loaded().nextFence
  {
    StepCounts(GcStep(h.DiskView(), gcAt), op);
    IssuedFences(ops, CallStep(HostStep(h, Restart), op, gcAt).1.claim.fence);
  }

  /**
    Writes happen after the lock is dropped, so two can land in the wrong order. Then a restart
    hands a live lease to a second holder, with a fence that was already used.
    */
  lemma ReorderedWritesBreakExclusion()
    ensures var a, b, c := Grant("j", "a", 9_000, 0), Grant("k", "b", 9_000, 0), Grant("k", "c", 9_000, 1);
            var h0 := CallStep(BOOT, a, 0).0;
            var h1 := CallStep(h0, b, 0);
            var h4 := HostStep(HostStep(HostStep(h1.0, Land(1)), Land(0)), Restart);
            var r := CallStep(h4, c, 1).1;
            && h1.1.Granted? && h1.1.claim.LiveAt(1)
            && r.Granted?
            && r.claim.key == h1.1.claim.key && r.claim.holder != h1.1.claim.holder
            && r.claim.fence == h1.1.claim.fence
  {
    var a, b, c := Grant("j", "a", 9_000, 0), Grant("k", "b", 9_000, 0), Grant("k", "c", 9_000, 1);
    var t1, _ := FreshGrant(BOOT, "j", "a", 0);
    var h0 := CallStep(BOOT, a, 0).0;
    var t2, _ := FreshGrant(h0, "k", "b", 0);
    var h1 := CallStep(h0, b, 0).0;
    assert h1.pending == [t1, t2];
    var h2 := HostStep(h1, Land(1));
    assert h2.pending == [t1];
    var h4 := HostStep(HostStep(h2, Land(0)), Restart);
    assert h4 == HostState(None, Some(t1), []);
    var _, _ := FreshGrant(h4, "k", "c", 1);
  }

  lemma FreshGrant(h: HostState, key: string, holder: string, now: nat) returns (t: Table, c: Claim)
    requires key in {"j", "k"} && holder in {"a", "b", "c"} && now < 10
    requires key !in h.Loaded().claims && h.Loaded().nextFence < U64_MAX && h.Loaded().Live(now) == h.Loaded().claims
    ensures c == Claim(key, holder, now, now + 9_000, h.Loaded().nextFence + 1)
    ensures t == Table(h.Loaded().claims[key := c], c.fence)
    ensures CallStep(h, Grant(key, holder, 9_000, now), now)
         == (HostState(Some(t), h.disk, h.pending + [t]), Granted(c))
  {
    TrimFixed(key);
    TrimFixed(holder);
    assert Sanitize(key, MAX_KEY) == Ok(key) && Sanitize(holder, MAX_HOLDER) == Ok(holder);
    assert GcStep(h.Loaded(), now) == h.Loaded();
    c := Claim(key, holder, now, now + 9_000, h.Loaded().nextFence + 1);
    t := Table(h.Loaded().claims[key := c], c.fence);
  }
}
