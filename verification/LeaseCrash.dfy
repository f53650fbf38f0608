/** Crashes of the lease host: writes that had not reached the file are lost, but no acknowledged change is. */
module LeaseCrash {
  import opened Text
  import opened Claims
  import opened LeaseHistory
  import opened LeaseHost

  /**
    What a run amounts to. `kept` are the requests whose effect survives so far and `replies` their answers;
    the file holds the effect of the first `durable` of them, and the pending writes those of the first `marks[k]`.
    A changing request is acknowledged once its own write has landed, that is, once it is among the durable ones.
    */
  datatype Story = Story(kept: seq<Op>, replies: seq<Reply>, durable: nat, marks: seq<nat>)

  const NO_STORY := Story([], [], 0, [])

  ghost predicate Coherent(s: Story) {
    |s.replies| == |s.kept| && s.durable <= |s.kept| && InRange(s.marks, s.durable, |s.kept|)
  }

  /** The marks climb from the durable length to the kept one. */
  ghost predicate InRange(marks: seq<nat>, low: nat, high: nat) {
    && (forall k :: 0 <= k < |marks| ==> low <= marks[k] <= high)
    && (forall j, k :: 0 <= j <= k < |marks| ==> marks[j] <= marks[k])
  }

  lemma MarkAdded(marks: seq<nat>, low: nat, high: nat)
    requires InRange(marks, low, high) && low <= high
    ensures InRange(marks, low, high + 1) && InRange(marks + [high + 1], low, high + 1)
  {
  }

  lemma MarkReached(marks: seq<nat>, low: nat, high: nat)
    requires InRange(marks, low, high) && marks != []
    ensures low <= marks[0] <= high && InRange(marks[1..], marks[0], high)
  {
  }

  /** Restarting keeps exactly what the file has, whatever writes were still on their way. */
  ghost function Tell(s: Story, h: HostState, e: HostEvent): Story
    requires Coherent(s)
  {
    match e
    case Call(op, gcAt) =>
      var (h', reply) := CallStep(h, op, gcAt);
      s.(kept := s.kept + [op], replies := s.replies + [reply],
         marks := if |h'.pending| > |h.pending| then s.marks + [|s.kept| + 1] else s.marks)
    case Land(i) =>
      if i == 0 < |s.marks| then s.(durable := s.marks[0], marks := s.marks[1..]) else s
    case Restart => Story(s.kept[..s.durable], s.replies[..s.durable], s.durable, [])
  }

  lemma TellCoheres(s: Story, h: HostState, e: HostEvent)
    requires Coherent(s)
    ensures Coherent(Tell(s, h, e))
  {
    MarkAdded(s.marks, s.durable, |s.kept|);
    if s.marks != [] { MarkReached(s.marks, s.durable, |s.kept|); }
  }

  /** Requests are timely against the surviving history, and writes reach the file in lock order. */
  ghost predicate Orderly(s: Story, h: HostState, clock: nat, e: HostEvent) {
    match e
    case Call(op, gcAt) => Timely(After(EMPTY, s.kept), op, gcAt, clock)
    case Land(i) => i == 0 < |h.pending|
    case Restart => true
  }

  function ClockAfter(clock: nat, e: HostEvent): nat {
    match e case Call(_, gcAt) => gcAt case _ => clock
  }

  /** Each write stands for the requests up to its mark. */
  ghost predicate AllStand(tables: seq<Table>, kept: seq<Op>, marks: seq<nat>, clock: nat) {
    |tables| == |marks| && forall k :: 0 <= k < |marks| ==>
      marks[k] <= |kept| && Same(tables[k], After(EMPTY, kept[..marks[k]]), clock)
  }

  /** The story is true of the host: memory, file and pending writes each stand for the history they are said to. */
  ghost predicate Told(s: Story, h: HostState, clock: nat) {
    && Coherent(s) && Sound(h) && |s.marks| == |h.pending|
    && (forall op :: op in s.kept ==> op.at <= clock) && RepliesMatch(s.replies, s.kept)
    && Same(h.Loaded(), After(EMPTY, s.kept), clock)
    && Same(h.DiskView(), After(EMPTY, s.kept[..s.durable]), clock)
    && AllStand(h.pending, s.kept, s.marks, clock)
    && (h.mem.None? ==> h.pending == [])
  }

  lemma PrefixMatches(replies: seq<Reply>, ops: seq<Op>, n: nat)
    requires RepliesMatch(replies, ops) && n <= |ops|
    ensures RepliesMatch(replies[..n], ops[..n])
  {
    forall i | 0 <= i < n ensures ReplyAt(EMPTY, ops[..n], i) == ReplyAt(EMPTY, ops, i) {
      assert ops[..n][..i] == ops[..i];
    }
  }

  lemma RestartTold(s: Story, h: HostState, clock: nat)
    requires Told(s, h, clock)
    ensures Told(Tell(s, h, Restart), HostStep(h, Restart), clock)
  {
    PrefixMatches(s.replies, s.kept, s.durable);
    assert s.kept[..s.durable][..s.durable] == s.kept[..s.durable];
  }

  lemma LandTold(s: Story, h: HostState, clock: nat)
    requires Told(s, h, clock) && h.pending != []
    ensures Told(Tell(s, h, Land(0)), HostStep(h, Land(0)), clock)
  {
    var h' := HostStep(h, Land(0));
    assert h'.pending == h.pending[1..];
  }

  /** A table that stood for the first `n` requests still does after one more. */
  lemma StillStands(table: Table, kept: seq<Op>, n: nat, op: Op, clock: nat, now: nat)
    requires n <= |kept| && Same(table, After(EMPTY, kept[..n]), clock) && clock <= now
    ensures Same(table, After(EMPTY, (kept + [op])[..n]), now)
  {
    assert (kept + [op])[..n] == kept[..n];
    SameLater(table, After(EMPTY, kept[..n]), clock, now);
  }

  lemma PendingStillStand(tables: seq<Table>, kept: seq<Op>, marks: seq<nat>, op: Op, clock: nat, now: nat)
    requires AllStand(tables, kept, marks, clock) && clock <= now
    ensures AllStand(tables, kept + [op], marks, now)
  {
    forall k | 0 <= k < |marks| ensures Same(tables[k], After(EMPTY, (kept + [op])[..marks[k]]), now) {
      StillStands(tables[k], kept, marks[k], op, clock, now);
    }
  }

  lemma LastStands(tables: seq<Table>, kept: seq<Op>, marks: seq<nat>, op: Op, table: Table, now: nat)
    requires AllStand(tables, kept + [op], marks, now) && Same(table, After(EMPTY, kept + [op]), now)
    ensures AllStand(tables + [table], kept + [op], marks + [|kept| + 1], now)
  {
    var all, ms, ts := kept + [op], marks + [|kept| + 1], tables + [table];
    TakeAll(all);
    forall k | 0 <= k < |ms| ensures ms[k] <= |all| && Same(ts[k], After(EMPTY, all[..ms[k]]), now) {
      if k < |marks| {
        assert ms[k] == marks[k] && ts[k] == tables[k];
      } else {
        assert ms[k] == |all| && ts[k] == table;
      }
    }
  }

  lemma TakeAll(ops: seq<Op>)
    ensures ops[..|ops|] == ops
  {
  }

  /** What one call adds: the memory, the reply, and a write if anything changed. */
  lemma ServedTold(s: Story, h: HostState, clock: nat, op: Op, gcAt: nat)
    requires Told(s, h, clock) && Orderly(s, h, clock, Call(op, gcAt))
    ensures var (h', reply) := CallStep(h, op, gcAt);
      && Same(h'.Loaded(), After(EMPTY, s.kept + [op]), gcAt)
      && RepliesMatch(s.replies + [reply], s.kept + [op]) && (forall o :: o in s.kept + [op] ==> o.at <= gcAt)
      && h'.disk == h.disk && h'.mem.Some?
      && (h'.pending == h.pending || h'.pending == h.pending + [h'.Loaded()])
  {
    var t := After(EMPTY, s.kept);
    AfterWellFormed(EMPTY, s.kept);
    ServeSame(h.Loaded(), t, op, gcAt, clock);
    RepliesSnoc(s.kept, op);
    RepliesMatchSnoc(s.replies, s.kept, CallStep(h, op, gcAt).1, op);
  }

  lemma WritesStand(tables: seq<Table>, kept: seq<Op>, marks: seq<nat>, op: Op, table: Table, clock: nat, now: nat,
                    tables': seq<Table>, marks': seq<nat>)
    requires AllStand(tables, kept, marks, clock) && clock <= now && Same(table, After(EMPTY, kept + [op]), now)
    requires || (tables' == tables && marks' == marks)
             || (tables' == tables + [table] && marks' == marks + [|kept| + 1])
    ensures AllStand(tables', kept + [op], marks', now)
  {
    PendingStillStand(tables, kept, marks, op, clock, now);
    if tables' != tables { LastStands(tables, kept, marks, op, table, now); }
  }

  /** One more request kept, with its answer and perhaps a write of the new memory. */
  lemma AnswerTold(s: Story, h: HostState, clock: nat, h': HostState, t: Story, op: Op, gcAt: nat)
    requires Told(s, h, clock) && clock <= gcAt && Coherent(t) && Sound(h') && h'.mem.Some? && h'.disk == h.disk
    requires t.kept == s.kept + [op] && t.durable == s.durable
    requires (forall o :: o in t.kept ==> o.at <= gcAt) && RepliesMatch(t.replies, t.kept)
    requires Same(h'.Loaded(), After(EMPTY, t.kept), gcAt)
    requires || (h'.pending == h.pending && t.marks == s.marks)
             || (h'.pending == h.pending + [h'.Loaded()] && t.marks == s.marks + [|s.kept| + 1])
    ensures Told(t, h', gcAt)
  {
    StillStands(h.DiskView(), s.kept, s.durable, op, clock, gcAt);
    WritesStand(h.pending, s.kept, s.marks, op, h'.Loaded(), clock, gcAt, h'.pending, t.marks);
  }

  lemma CallTold(s: Story, h: HostState, clock: nat, op: Op, gcAt: nat)
    requires Told(s, h, clock) && Orderly(s, h, clock, Call(op, gcAt))
    ensures Told(Tell(s, h, Call(op, gcAt)), HostStep(h, Call(op, gcAt)), gcAt)
  {
    StepSound(h, Call(op, gcAt));
    TellCoheres(s, h, Call(op, gcAt));
    ServedTold(s, h, clock, op, gcAt);
    AnswerTold(s, h, clock, CallStep(h, op, gcAt).0, Tell(s, h, Call(op, gcAt)), op, gcAt);
  }

  /** A grant always queues its own write, so it is acknowledged exactly when it has become durable. */
  lemma GrantsAreWritten(s: Story, h: HostState, op: Op, gcAt: nat)
    requires Coherent(s) && CallStep(h, op, gcAt).1.Granted?
    ensures var t := Tell(s, h, Call(op, gcAt)); t.marks == s.marks + [|t.kept|] && t.replies[|t.kept| - 1].Granted?
  {
    var before := GcStep(h.Loaded(), gcAt);
    StepCounts(before, op);
    assert NextFence(before.nextFence) != before.nextFence;
  }

  lemma StepTold(s: Story, h: HostState, clock: nat, e: HostEvent)
    requires Told(s, h, clock) && Orderly(s, h, clock, e)
    ensures Told(Tell(s, h, e), HostStep(h, e), ClockAfter(clock, e))
  {
    match e
    case Call(op, gcAt) => CallTold(s, h, clock, op, gcAt);
    case Land(_) => LandTold(s, h, clock);
    case Restart => RestartTold(s, h, clock);
  }

  // ------------------------------------------------------------ runs

  /** A run from one host and story to another, crashes included. */
  ghost predicate Reaches(s: Story, h: HostState, clock: nat, events: seq<HostEvent>, t: Story, g: HostState, now: nat)
    requires Coherent(s)
    decreases |events|
  {
    if events == [] then s == t && h == g && clock == now
    else
      var e := events[0];
      TellCoheres(s, h, e);
      Orderly(s, h, clock, e) && Reaches(Tell(s, h, e), HostStep(h, e), ClockAfter(clock, e), events[1..], t, g, now)
  }

  /** The durable part of a story only ever grows, and its answers are never taken back. */
  ghost predicate Extends(s: Story, t: Story)
    requires Coherent(s) && Coherent(t)
  {
    s.durable <= t.durable && t.kept[..s.durable] == s.kept[..s.durable]
    && t.replies[..s.durable] == s.replies[..s.durable]
  }

  lemma StepExtends(s: Story, h: HostState, e: HostEvent)
    requires Coherent(s)
    ensures Coherent(Tell(s, h, e)) && Extends(s, Tell(s, h, e))
  {
    TellCoheres(s, h, e);
    var t := Tell(s, h, e);
    assert t.kept[..s.durable] == s.kept[..s.durable] && t.replies[..s.durable] == s.replies[..s.durable];
  }

  lemma ExtendsTransitive(s: Story, t: Story, u: Story)
    requires Coherent(s) && Coherent(t) && Coherent(u) && Extends(s, t) && Extends(t, u)
    ensures Extends(s, u)
  {
    assert u.kept[..s.durable] == u.kept[..t.durable][..s.durable];
    assert t.kept[..s.durable] == t.kept[..t.durable][..s.durable];
    assert u.replies[..s.durable] == u.replies[..t.durable][..s.durable];
    assert t.replies[..s.durable] == t.replies[..t.durable][..s.durable];
  }

  lemma {:induction false} RunTold(s: Story, h: HostState, clock: nat, events: seq<HostEvent>,
                                   t: Story, g: HostState, now: nat)
    requires Told(s, h, clock) && Reaches(s, h, clock, events, t, g, now)
    ensures Told(t, g, now) && Extends(s, t)
    decreases |events|
  {
    if events != [] {
      var e := events[0];
      StepTold(s, h, clock, e);
      StepExtends(s, h, e);
      RunTold(Tell(s, h, e), HostStep(h, e), ClockAfter(clock, e), events[1..], t, g, now);
      ExtendsTransitive(s, Tell(s, h, e), t);
    }
  }

  lemma BootTold()
    ensures Told(NO_STORY, BOOT, 0)
  {
  }

  /**
    Acknowledged requests survive: whatever is durable at one point of a run is there, with the same answers, at
    every later point, however many crashes lie between and however many writes they lose.
    */
  lemma AcknowledgedSurvive(before: seq<HostEvent>, s: Story, h: HostState, clock: nat,
                            after: seq<HostEvent>, t: Story, g: HostState, now: nat)
    requires Coherent(s) && Reaches(NO_STORY, BOOT, 0, before, s, h, clock) && Reaches(s, h, clock, after, t, g, now)
    ensures Coherent(t) && Extends(s, t) && Told(t, g, now)
  {
    BootTold();
    RunTold(NO_STORY, BOOT, 0, before, s, h, clock);
    RunTold(s, h, clock, after, t, g, now);
  }

  /**
    Crash safety: over any run, the surviving grants have climbing fences, and a key changes holder only after the
    earlier tenure is over: in the order of service always, and by the clock of the taker when callers are served in
    the order of their clocks. A grant that a crash takes back had never been acknowledged.
    */
  lemma CrashSafe(events: seq<HostEvent>, s: Story, h: HostState, clock: nat, i: nat, j: nat)
    requires Reaches(NO_STORY, BOOT, 0, events, s, h, clock)
    requires i < j < |s.replies| && s.replies[i].Granted? && s.replies[j].Granted?
    ensures |s.kept| == |s.replies| && ReplyAt(EMPTY, s.kept, i) == s.replies[i]
    ensures Grants(EMPTY, s.kept) <= U64_MAX ==> s.replies[i].claim.fence < s.replies[j].claim.fence
    ensures s.replies[i].claim.key == s.replies[j].claim.key
            && s.replies[i].claim.holder != s.replies[j].claim.holder ==>
            && OverInTurn(EMPTY, s.kept, i, j)
            && (ClockOrder(s.kept) ==> OverBefore(EMPTY, s.kept, i, j))
  {
    BootTold();
    RunTold(NO_STORY, BOOT, 0, events, s, h, clock);
    FencesClimbIff(EMPTY, s.kept);
    assert s.replies[i] == ReplyAt(EMPTY, s.kept, i) && s.replies[j] == ReplyAt(EMPTY, s.kept, j);
    if s.replies[i].claim.key == s.replies[j].claim.key && s.replies[i].claim.holder != s.replies[j].claim.holder {
      TenuresTakeTurns(EMPTY, s.kept, i, j);
      if ClockOrder(s.kept) {
        TenuresDisjoint(EMPTY, s.kept, i, j, clock);
      }
    }
  }

  // ------------------------------------------------------------ fences without clocks

  /** Writes land in lock order; nothing is asked of clocks, and crashes come at any time. */
  ghost predicate Lands(s: Story, h: HostState, events: seq<HostEvent>, t: Story, g: HostState)
    requires Coherent(s)
    decreases |events|
  {
    if events == [] then s == t && h == g
    else
      var e := events[0];
      TellCoheres(s, h, e);
      (e.Land? ==> e.i == 0 < |h.pending|) && Lands(Tell(s, h, e), HostStep(h, e), events[1..], t, g)
  }

  /** Each pending write has the counter its mark says. */
  ghost predicate MarksCount(tables: seq<Table>, replies: seq<Reply>, marks: seq<nat>) {
    |tables| == |marks| && forall k :: 0 <= k < |marks| ==>
      marks[k] <= |replies| && tables[k].nextFence == GrantCount(replies[..marks[k]])
  }

  /** Memory, file and pending writes have the counters of the answers they stand for. */
  ghost predicate Numbered(s: Story, h: HostState) {
    && Coherent(s) && FencesCount(s.replies)
    && h.Loaded().nextFence == GrantCount(s.replies)
    && h.DiskView().nextFence == GrantCount(s.replies[..s.durable])
    && MarksCount(h.pending, s.replies, s.marks)
    && (h.mem.None? ==> h.pending == [])
  }

  lemma FencesCountPrefix(replies: seq<Reply>, n: nat)
    requires FencesCount(replies) && n <= |replies|
    ensures FencesCount(replies[..n])
  {
    forall i | 0 <= i < n ensures replies[..n][..i + 1] == replies[..i + 1] && replies[..n][i] == replies[i] {}
  }

  lemma MarksCountSnoc(tables: seq<Table>, replies: seq<Reply>, marks: seq<nat>, r: Reply)
    requires MarksCount(tables, replies, marks)
    ensures MarksCount(tables, replies + [r], marks)
  {
    forall k | 0 <= k < |marks| ensures (replies + [r])[..marks[k]] == replies[..marks[k]] {}
  }

  lemma LastMarkCounts(tables: seq<Table>, replies: seq<Reply>, marks: seq<nat>, table: Table)
    requires MarksCount(tables, replies, marks) && table.nextFence == GrantCount(replies)
    ensures MarksCount(tables + [table], replies, marks + [|replies|])
  {
    assert replies[..|replies|] == replies;
  }

  /** One more answer, with the counter as it should then be and perhaps a write of it. */
  lemma AnswerNumbered(s: Story, h: HostState, h': HostState, r: Reply, t: Story)
    requires Numbered(s, h) && Coherent(t) && h'.disk == h.disk && h'.mem.Some?
    requires h'.Loaded().nextFence == GrantCount(s.replies) + (if r.Granted? then 1 else 0)
    requires r.Granted? ==> r.claim.fence == GrantCount(s.replies) + 1
    requires t.replies == s.replies + [r] && t.durable == s.durable
    requires || (h'.pending == h.pending && t.marks == s.marks)
             || (h'.pending == h.pending + [h'.Loaded()] && t.marks == s.marks + [|s.replies + [r]|])
    ensures Numbered(t, h')
  {
    GrantCountSnoc(s.replies, r);
    FencesCountSnoc(s.replies, r);
    assert (s.replies + [r])[..s.durable] == s.replies[..s.durable];
    MarksCountSnoc(h.pending, s.replies, s.marks, r);
    if h'.pending != h.pending { LastMarkCounts(h.pending, s.replies + [r], s.marks, h'.Loaded()); }
  }

  lemma CallNumbered(s: Story, h: HostState, op: Op, gcAt: nat)
    requires Numbered(s, h) && |s.replies| < U64_MAX
    ensures Numbered(Tell(s, h, Call(op, gcAt)), HostStep(h, Call(op, gcAt)))
  {
    var (h', r) := CallStep(h, op, gcAt);
    GrantCountGrows(s.replies, |s.replies|);
    TellCoheres(s, h, Call(op, gcAt));
    CallCounts(h, op, gcAt);
    AnswerNumbered(s, h, h', r, Tell(s, h, Call(op, gcAt)));
  }

  lemma LandNumbered(s: Story, h: HostState)
    requires Numbered(s, h) && h.pending != []
    ensures Numbered(Tell(s, h, Land(0)), HostStep(h, Land(0)))
  {
    TellCoheres(s, h, Land(0));
    assert HostStep(h, Land(0)).pending == h.pending[1..];
  }

  lemma RestartNumbered(s: Story, h: HostState)
    requires Numbered(s, h)
    ensures Numbered(Tell(s, h, Restart), HostStep(h, Restart))
  {
    TellCoheres(s, h, Restart);
    FencesCountPrefix(s.replies, s.durable);
    assert s.replies[..s.durable][..s.durable] == s.replies[..s.durable];
  }

  lemma {:induction false} RunNumbered(s: Story, h: HostState, events: seq<HostEvent>, t: Story, g: HostState)
    requires Numbered(s, h) && Lands(s, h, events, t, g) && |s.replies| + |events| <= U64_MAX
    ensures Numbered(t, g)
    decreases |events|
  {
    if events != [] {
      match events[0] {
        case Call(op, gcAt) => CallNumbered(s, h, op, gcAt);
        case Land(_) => LandNumbered(s, h);
        case Restart => RestartNumbered(s, h);
      }
      RunNumbered(Tell(s, h, events[0]), HostStep(h, events[0]), events[1..], t, g);
    }
  }

  /** Over any crashes and with any clocks, surviving grants have climbing fences, for the first 2^64 - 1 events. */
  lemma CrashFencesClimb(events: seq<HostEvent>, s: Story, h: HostState, i: nat, j: nat)
    requires Lands(NO_STORY, BOOT, events, s, h) && |events| <= U64_MAX
    requires i < j < |s.replies| && s.replies[i].Granted? && s.replies[j].Granted?
    ensures s.replies[i].claim.fence < s.replies[j].claim.fence
  {
    RunNumbered(NO_STORY, BOOT, events, s, h);
    FencesCountClimb(s.replies, i, j);
  }
}
