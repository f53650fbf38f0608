/** Reaping leaked agents by provenance: a recorded pid and start time name the process to kill. */
module Reaper {
  import opened Text

  /** A live process: its start time, its group, and whether this program launched it. */
  datatype Proc = Proc(startTime: nat, pgid: nat, rssMb: nat, ours: bool)

  datatype TrackedAgent = TrackedAgent(pid: nat, startTime: nat, session: string)

  /** The record file: absent, unreadable as a list, or the agents it names. */
  datatype Record = Absent | Corrupt | Saved(agents: seq<TrackedAgent>)

  datatype Report = Report(killed: nat, freedMb: nat)

  /** A process as the kernel would tell it apart from every other: its pid and its birth. */
  datatype Identity = Identity(pid: nat, startTime: nat)

  type Procs = map<nat, Proc>

  function IdOf(a: TrackedAgent): Identity {
    Identity(a.pid, a.startTime)
  }

  function StartTime(procs: Procs, pid: nat): Option<nat> {
    if pid in procs then Some(procs[pid].startTime) else None
  }

  function RssMb(procs: Procs, pid: nat): nat {
    if pid in procs then procs[pid].rssMb else 0
  }

  /** SIGKILL to the group led by `pid`; pids 0 and 1 are refused. */
  function KillGroup(procs: Procs, pid: nat): Procs {
    if pid <= 1 then procs else map p | p in procs && procs[p].pgid != pid :: procs[p]
  }

  function Track(procs: Procs, agents: seq<(nat, string)>): seq<TrackedAgent> {
    if agents == [] then []
    else
      var (pid, session) := agents[|agents| - 1];
      Track(procs, agents[..|agents| - 1])
      + (match StartTime(procs, pid) case Some(t) => [TrackedAgent(pid, t, session)] case None => [])
  }

  predicate Matches(procs: Procs, a: TrackedAgent) {
    StartTime(procs, a.pid) == Some(a.startTime)
  }

  /** The loop over the record: what is left alive, what is reported, and the leaders that were hit. */
  function ReapAll(procs: Procs, agents: seq<TrackedAgent>): (Procs, Report, seq<Identity>) {
    if agents == [] then (procs, Report(0, 0), [])
    else
      var (left, report, hit) := ReapAll(procs, agents[..|agents| - 1]);
      var a := agents[|agents| - 1];
      if Matches(left, a) then
        (KillGroup(left, a.pid), Report(report.killed + 1, report.freedMb + RssMb(left, a.pid)),
         hit + [IdOf(a)])
      else (left, report, hit)
  }

  /** The provenance record and the process table it is checked against. */
  class Machine {
    var procs: Procs
    var record: Record
    ghost var hit: seq<Identity>

    constructor (procs: Procs, record: Record)
      ensures this.procs == procs && this.record == record && hit == []
    {
      this.procs, this.record, hit := procs, record, [];
    }

    method RecordLiveAgents(enabled: bool, agents: seq<(nat, string)>)
      modifies this`record
      ensures record == if enabled then Saved(Track(procs, agents)) else old(record)
    {
      if !enabled { return; }
      var tracked := [];
      for i := 0 to |agents|
        invariant tracked == Track(procs, agents[..i])
      {
        assert agents[..i + 1][..i] == agents[..i];
        var t := StartTime(procs, agents[i].0);
        if t.Some? {
          tracked := tracked + [TrackedAgent(agents[i].0, t.value, agents[i].1)];
        }
      }
      assert agents[..|agents|] == agents;
      record := Saved(tracked);
    }

    method ReapOrphans(enabled: bool) returns (report: Report)
      modifies this
      ensures !enabled || !old(record).Saved? ==>
        report == Report(0, 0) && procs == old(procs) && record == old(record) && hit == old(hit)
      ensures enabled && old(record).Saved? ==>
        var (left, r, h) := ReapAll(old(procs), old(record).agents);
        report == r && procs == left && record == Absent && hit == old(hit) + h
    {
      report := Report(0, 0);
      if !enabled || !record.Saved? { return; }
      var agents := record.agents;
      for i := 0 to |agents|
        invariant (procs, report) == (ReapAll(old(procs), agents[..i]).0, ReapAll(old(procs), agents[..i]).1)
        invariant hit == old(hit) + ReapAll(old(procs), agents[..i]).2
        invariant record == old(record)
      {
        assert agents[..i + 1][..i] == agents[..i];
        var a := agents[i];
        if !Matches(procs, a) {
          continue;
        }
        report := Report(report.killed + 1, report.freedMb + RssMb(procs, a.pid));
        hit := hit + [IdOf(a)];
        procs := KillGroup(procs, a.pid);
      }
      assert agents[..|agents|] == agents;
      record := Absent;
    }
  }

  // ------------------------------------------------------------ one reaping

  lemma {:induction false} ReapedWereRecordedAndAlive(procs: Procs, agents: seq<TrackedAgent>)
    ensures var (left, report, hit) := ReapAll(procs, agents);
            && (forall p :: p in left ==> p in procs && left[p] == procs[p])
            && |hit| == report.killed
            && forall i :: 0 <= i < |hit| ==>
                 && StartTime(procs, hit[i].pid) == Some(hit[i].startTime)
                 && exists a :: a in agents && a.pid == hit[i].pid && a.startTime == hit[i].startTime
  {
    if agents != [] {
      var before := agents[..|agents| - 1];
      ReapedWereRecordedAndAlive(procs, before);
      var a := agents[|agents| - 1];
      assert forall b :: b in before ==> b in agents;
      assert a in agents;
    }
  }

  /** Every recorded agent that leads its group is gone after the reaping; pids 0 and 1 are never signalled. */
  lemma {:induction false} RecordedAreGone(procs: Procs, agents: seq<TrackedAgent>, a: TrackedAgent)
    requires a in agents && a.pid > 1
    requires a.pid in procs ==> procs[a.pid].pgid == a.pid
    ensures !Matches(ReapAll(procs, agents).0, a)
  {
    var before, last := agents[..|agents| - 1], agents[|agents| - 1];
    ReapedWereRecordedAndAlive(procs, before);
    var left := ReapAll(procs, before).0;
    if a != last {
      assert a in before;
      RecordedAreGone(procs, before, a);
    }
  }

  /** Exactly the members of a signalled group die; pids 0 and 1 are counted but never signalled. */
  lemma {:induction false} VictimsIff(procs: Procs, agents: seq<TrackedAgent>, p: nat)
    requires p in procs
    ensures var (left, _, hit) := ReapAll(procs, agents);
            p !in left <==> exists i :: 0 <= i < |hit| && hit[i].pid > 1 && procs[p].pgid == hit[i].pid
  {
    if agents != [] {
      var before, a := agents[..|agents| - 1], agents[|agents| - 1];
      VictimsIff(procs, before, p);
      ReapedWereRecordedAndAlive(procs, before);
      var (left, _, hit) := ReapAll(procs, before);
      if Matches(left, a) {
        var more := hit + [IdOf(a)];
        if i :| 0 <= i < |hit| && hit[i].pid > 1 && procs[p].pgid == hit[i].pid {
          assert more[i] == hit[i];
        }
        assert more[|hit|] == IdOf(a);
      }
    }
  }

  /** A process outside every signalled group is untouched. */
  lemma OthersSurvive(procs: Procs, agents: seq<TrackedAgent>, p: nat)
    requires p in procs
    requires forall a :: a in agents ==> a.pid != procs[p].pgid || !Matches(procs, a)
    ensures p in ReapAll(procs, agents).0
  {
    VictimsIff(procs, agents, p);
    ReapedWereRecordedAndAlive(procs, agents);
  }

  // ------------------------------------------------------------ whose process is hit

  /** No recorded agent that is alive sits in another one's group. */
  ghost predicate OwnGroups(procs: Procs, agents: seq<TrackedAgent>) {
    forall a, b :: a in agents && b in agents && Matches(procs, a) && Matches(procs, b) && a.pid != b.pid ==>
      procs[a.pid].pgid != b.pid
  }

  /** With each agent in a group of its own, the hits are exactly the recorded agents still alive. */
  lemma {:induction false} HitIff(procs: Procs, agents: seq<TrackedAgent>, id: Identity)
    requires OwnGroups(procs, agents)
    ensures id in ReapAll(procs, agents).2 <==>
            exists a :: a in agents && Matches(procs, a) && IdOf(a) == id
  {
    if agents != [] {
      var before, last := agents[..|agents| - 1], agents[|agents| - 1];
      assert agents == before + [last];
      assert OwnGroups(procs, before) by {
        assert forall a :: a in before ==> a in agents;
      }
      HitIff(procs, before, id);
      LastMatches(procs, before, last);
    }
  }

  /** An agent that was alive at first is hit in its turn, or its process was hit already. */
  lemma LastMatches(procs: Procs, before: seq<TrackedAgent>, last: TrackedAgent)
    requires OwnGroups(procs, before + [last])
    ensures var (left, _, hit) := ReapAll(procs, before);
            && (Matches(left, last) ==> Matches(procs, last))
            && (Matches(procs, last) ==> Matches(left, last) || IdOf(last) in hit)
  {
    var (left, _, hit) := ReapAll(procs, before);
    ReapedWereRecordedAndAlive(procs, before);
    if Matches(procs, last) && last.pid !in left {
      VictimsIff(procs, before, last.pid);
      var i :| 0 <= i < |hit| && hit[i].pid > 1 && procs[last.pid].pgid == hit[i].pid;
      var a :| a in before && a.pid == hit[i].pid && a.startTime == hit[i].startTime;
      assert Matches(procs, a) && a in before + [last] && last in before + [last];
    }
  }

  /** Every recorded agent still alive is hit in its turn, unless an earlier hit's group took it along. */
  lemma {:induction false} AliveIsReached(procs: Procs, agents: seq<TrackedAgent>, a: TrackedAgent)
    requires a in agents && Matches(procs, a)
    ensures IdOf(a) in ReapAll(procs, agents).2 || a.pid !in ReapAll(procs, agents).0
  {
    var before, last := agents[..|agents| - 1], agents[|agents| - 1];
    ReapedWereRecordedAndAlive(procs, before);
    if a in before {
      AliveIsReached(procs, before, a);
    } else {
      assert a == last;
    }
  }

  /**
    Zero collateral, exactly: no leader that is hit is another program's if and only if every recorded agent
    still alive is one of ours.
    */
  lemma NoStrangerHitIff(procs: Procs, agents: seq<TrackedAgent>)
    requires OwnGroups(procs, agents)
    ensures var hit := ReapAll(procs, agents).2;
            (forall id :: id in hit ==> id.pid in procs && procs[id.pid].ours) <==>
            forall a :: a in agents && Matches(procs, a) ==> procs[a.pid].ours
  {
    var hit := ReapAll(procs, agents).2;
    forall id | id in hit ensures exists a :: a in agents && Matches(procs, a) && IdOf(a) == id {
      HitIff(procs, agents, id);
    }
    forall a | a in agents && Matches(procs, a) ensures IdOf(a) in hit {
      HitIff(procs, agents, IdOf(a));
    }
  }

  function HitSet(hit: seq<Identity>): set<Identity> {
    set id | id in hit
  }

  /** The recorded agents that a reaping hit, or whose process did not outlive it. */
  function Harmed(procs: Procs, agents: seq<TrackedAgent>): set<Identity> {
    var (left, _, hit) := ReapAll(procs, agents);
    HitSet(hit) + set a | a in agents && Matches(procs, a) && a.pid !in left :: IdOf(a)
  }

  function Strangers(procs: Procs, ids: set<Identity>): set<Identity> {
    set id | id in ids && id.pid in procs && !procs[id.pid].ours
  }

  /** A reaping harms no recorded stranger if and only if every recorded agent alive is ours; no group is assumed. */
  lemma NoStrangerHarmedIff(procs: Procs, agents: seq<TrackedAgent>)
    ensures Strangers(procs, Harmed(procs, agents)) == {} <==>
            forall a :: a in agents && Matches(procs, a) ==> procs[a.pid].ours
  {
    var harmed := Harmed(procs, agents);
    ReapedWereRecordedAndAlive(procs, agents);
    forall a | a in agents && Matches(procs, a) ensures IdOf(a) in harmed {
      AliveIsReached(procs, agents, a);
    }
    forall id | id in harmed ensures exists a :: a in agents && Matches(procs, a) && IdOf(a) == id {
      var hit := ReapAll(procs, agents).2;
      if i :| 0 <= i < |hit| && hit[i] == id {
        var a :| a in agents && a.pid == id.pid && a.startTime == id.startTime;
        assert Matches(procs, a) && IdOf(a) == id;
      }
    }
    if a :| a in agents && Matches(procs, a) && !procs[a.pid].ours {
      assert IdOf(a) in Strangers(procs, harmed);
    }
  }

  /** What the kernel sees to: pids above 1, one owner to a group, and a group named after a live process is its own. */
  ghost predicate Groups(procs: Procs) {
    && (forall p :: p in procs ==> p > 1)
    && (forall p, q :: p in procs && q in procs && procs[p].pgid == procs[q].pgid ==> procs[p].ours == procs[q].ours)
    && (forall p, q :: p in procs && q in procs && procs[q].pgid == p ==> procs[p].pgid == p)
  }

  /** A recorded agent, alive, that leads a group: the only kind whose signal reaches anybody. */
  ghost predicate LiveLeader(procs: Procs, a: TrackedAgent) {
    Matches(procs, a) && procs[a.pid].pgid == a.pid
  }

  ghost predicate StrangersSurvive(procs: Procs, left: Procs) {
    forall p :: p in procs && !procs[p].ours ==> p in left
  }

  /** Of all processes, recorded or not, no stranger dies if and only if every recorded live leader is ours. */
  lemma StrangersSurviveIff(procs: Procs, agents: seq<TrackedAgent>)
    requires Groups(procs)
    ensures StrangersSurvive(procs, ReapAll(procs, agents).0) <==>
            forall a :: a in agents && LiveLeader(procs, a) ==> procs[a.pid].ours
  {
    var (left, _, hit) := ReapAll(procs, agents);
    if p :| p in procs && !procs[p].ours && p !in left {
      var a := Killer(procs, agents, p);
    }
    forall a | a in agents && LiveLeader(procs, a) ensures a.pid !in left {
      LeaderDies(procs, agents, a);
    }
  }

  /** Whoever dies, dies of a recorded live leader of the same owner. */
  lemma Killer(procs: Procs, agents: seq<TrackedAgent>, p: nat) returns (a: TrackedAgent)
    requires Groups(procs) && p in procs && p !in ReapAll(procs, agents).0
    ensures a in agents && LiveLeader(procs, a) && procs[a.pid].ours == procs[p].ours
  {
    var hit := ReapAll(procs, agents).2;
    VictimsIff(procs, agents, p);
    ReapedWereRecordedAndAlive(procs, agents);
    var i :| 0 <= i < |hit| && hit[i].pid > 1 && procs[p].pgid == hit[i].pid;
    a :| a in agents && a.pid == hit[i].pid && a.startTime == hit[i].startTime;
    assert procs[p].pgid == a.pid && a.pid in procs;
  }

  lemma LeaderDies(procs: Procs, agents: seq<TrackedAgent>, a: TrackedAgent)
    requires Groups(procs) && a in agents && LiveLeader(procs, a)
    ensures a.pid !in ReapAll(procs, agents).0
  {
    var hit := ReapAll(procs, agents).2;
    AliveIsReached(procs, agents, a);
    if IdOf(a) in hit {
      var i :| 0 <= i < |hit| && hit[i] == IdOf(a);
      VictimsIff(procs, agents, a.pid);
    }
  }

  // ------------------------------------------------------------ runs

  /**
    The machine and its history. `now` is the kernel's tick count since boot, and `stale` says that the record was
    written before it. Of this boot, `recorded` is every identity written to the record and whether its process was
    ours then, `owner` whose the latest process of an identity is, and `reused` the identities two owners had within
    one tick. Of all time, `written` is every identity ever recorded, `hit` every leader ever hit, and `struck` every
    process that died of a startup without being ours, recorded or not.
    */
  datatype State = State(now: nat, procs: Procs, record: Record, stale: bool, recorded: map<Identity, bool>,
                         owner: map<Identity, bool>, reused: set<Identity>, written: set<Identity>,
                         hit: set<Identity>, struck: set<Identity>)

  const BOOT := State(0, map[], Absent, false, map[], map[], {}, {}, {}, {})

  datatype Event =
    | ClockTick
    | Spawn(pid: nat, pgid: nat, rssMb: nat, ours: bool)
    | Exit(pid: nat)
    | RecordTick(agents: seq<(nat, string)>)
    | Startup
    | Reboot

  /**
    The kernel hands out a pid only while it names neither a process nor a group, and the new process leads a group
    of its own or joins a living one of the same owner.
    */
  ghost predicate Enabled(s: State, e: Event) {
    match e
    case Spawn(pid, pgid, _, ours) =>
      && pid > 1 && pid !in s.procs && (forall q :: q in s.procs ==> s.procs[q].pgid != pid)
      && (pgid == pid || exists q :: q in s.procs && s.procs[q].pgid == pgid && s.procs[q].ours == ours)
    case _ => true
  }

  function Identities(agents: seq<TrackedAgent>): set<Identity> {
    set a | a in agents :: IdOf(a)
  }

  /** Whether each recorded process was ours when it was recorded. */
  function Owners(procs: Procs, agents: seq<TrackedAgent>): map<Identity, bool> {
    map id | id in Identities(agents) && id.pid in procs :: procs[id.pid].ours
  }

  /** The processes, not ours, that are gone. */
  function DeadStrangers(procs: Procs, left: Procs): set<Identity> {
    set p | p in procs && !procs[p].ours && p !in left :: Identity(p, procs[p].startTime)
  }

  /** Crashes, clean quits and restarts are sequences of these: processes exit, the record stays, startup reaps. */
  ghost function Step(s: State, e: Event): State
    requires Enabled(s, e)
  {
    match e
    case ClockTick => s.(now := s.now + 1)
    case Spawn(pid, pgid, rss, ours) =>
      var id := Identity(pid, s.now);
      s.(procs := s.procs[pid := Proc(s.now, pgid, rss, ours)], owner := s.owner[id := ours],
         reused := if id in s.owner && s.owner[id] != ours then s.reused + {id} else s.reused)
    case Exit(pid) => s.(procs := s.procs - {pid})
    case RecordTick(agents) =>
      var tracked := Track(s.procs, agents);
      s.(record := Saved(tracked), stale := false, recorded := s.recorded + Owners(s.procs, tracked),
         written := s.written + Identities(tracked))
    case Startup =>
      if !s.record.Saved? then s
      else
        var (left, _, hit) := ReapAll(s.procs, s.record.agents);
        s.(procs := left, record := Absent, stale := false, hit := s.hit + HitSet(hit),
           struck := s.struck + DeadStrangers(s.procs, left))
    case Reboot =>
      s.(now := 0, procs := map[], stale := s.record.Saved?, recorded := map[], owner := map[], reused := {})
  }

  /** An identity that never changed owner still has the one it was recorded with. */
  ghost predicate AgreesWith(recorded: map<Identity, bool>, owner: map<Identity, bool>, reused: set<Identity>) {
    forall id :: id in recorded ==> id in owner && (id !in reused ==> recorded[id] == owner[id])
  }

  lemma MoreRecorded(recorded: map<Identity, bool>, more: map<Identity, bool>, owner: map<Identity, bool>,
                     reused: set<Identity>)
    requires AgreesWith(recorded, owner, reused) && AgreesWith(more, owner, {})
    ensures AgreesWith(recorded + more, owner, reused) && more.Keys <= (recorded + more).Keys
  {
  }

  /** Every living process has the latest owner of its identity. */
  ghost predicate LivingOwned(procs: Procs, owner: map<Identity, bool>) {
    forall p :: p in procs ==>
      var id := Identity(p, procs[p].startTime); id in owner && owner[id] == procs[p].ours
  }

  ghost predicate Inv(s: State) {
    && Groups(s.procs)
    && LivingOwned(s.procs, s.owner)
    && (s.record.Saved? ==> Identities(s.record.agents) <= s.written)
    && (s.record.Saved? && !s.stale ==> Identities(s.record.agents) <= s.recorded.Keys)
    && AgreesWith(s.recorded, s.owner, s.reused)
    && s.hit <= s.written
  }

  /** What the recorder writes is alive, with the start time it has now. */
  lemma {:induction false} TrackedAreAlive(procs: Procs, agents: seq<(nat, string)>)
    ensures forall a :: a in Track(procs, agents) ==> Matches(procs, a)
  {
    if agents != [] {
      TrackedAreAlive(procs, agents[..|agents| - 1]);
    }
  }

  lemma HitsAreRecorded(procs: Procs, agents: seq<TrackedAgent>)
    ensures HitSet(ReapAll(procs, agents).2) <= Identities(agents)
  {
    ReapedWereRecordedAndAlive(procs, agents);
    var hit := ReapAll(procs, agents).2;
    forall id | id in HitSet(hit) ensures id in Identities(agents) {
      var i :| 0 <= i < |hit| && hit[i] == id;
      var a :| a in agents && a.pid == hit[i].pid && a.startTime == hit[i].startTime;
      assert IdOf(a) == id;
    }
  }

  lemma OwnersKnown(s: State, tracked: seq<TrackedAgent>)
    requires Inv(s) && forall a :: a in tracked ==> Matches(s.procs, a)
    ensures var owners := Owners(s.procs, tracked);
      owners.Keys == Identities(tracked) && AgreesWith(owners, s.owner, {})
  {
    var owners := Owners(s.procs, tracked);
    forall id | id in owners ensures id in s.owner && owners[id] == s.owner[id] {
      var a :| a in tracked && IdOf(a) == id;
      assert Matches(s.procs, a);
    }
    forall id | id in Identities(tracked) ensures id in owners {
      var a :| a in tracked && IdOf(a) == id;
      assert Matches(s.procs, a);
    }
  }

  lemma RecordInv(s: State, agents: seq<(nat, string)>)
    requires Inv(s)
    ensures Inv(Step(s, RecordTick(agents)))
  {
    var tracked := Track(s.procs, agents);
    TrackedAreAlive(s.procs, agents);
    OwnersKnown(s, tracked);
    WrittenInv(s, tracked, Identities(tracked), Owners(s.procs, tracked));
  }

  lemma WrittenInv(s: State, tracked: seq<TrackedAgent>, ids: set<Identity>, owners: map<Identity, bool>)
    requires Inv(s) && ids == Identities(tracked) == owners.Keys && AgreesWith(owners, s.owner, {})
    ensures Inv(s.(record := Saved(tracked), stale := false, recorded := s.recorded + owners,
                   written := s.written + ids))
  {
    MoreRecorded(s.recorded, owners, s.owner, s.reused);
  }

  lemma SpawnGroups(s: State, e: Event)
    requires Groups(s.procs) && e.Spawn? && Enabled(s, e)
    ensures Groups(Step(s, e).procs)
  {
  }

  lemma FewerGroups(procs: Procs, left: Procs)
    requires Groups(procs) && forall p :: p in left ==> p in procs && left[p] == procs[p]
    ensures Groups(left)
  {
  }

  lemma StartupInv(s: State)
    requires Inv(s)
    ensures Inv(Step(s, Startup))
  {
    if s.record.Saved? {
      ReapedWereRecordedAndAlive(s.procs, s.record.agents);
      HitsAreRecorded(s.procs, s.record.agents);
      FewerGroups(s.procs, ReapAll(s.procs, s.record.agents).0);
    }
  }

  lemma StepInv(s: State, e: Event)
    requires Inv(s) && Enabled(s, e)
    ensures Inv(Step(s, e))
  {
    match e
    case RecordTick(agents) => RecordInv(s, agents);
    case Startup => StartupInv(s);
    case Spawn(_, _, _, _) => SpawnGroups(s, e);
    case Exit(pid) => FewerGroups(s.procs, s.procs - {pid});
    case _ =>
  }

  ghost predicate Reaches(s: State, events: seq<Event>, t: State)
    decreases |events|
  {
    if events == [] then s == t
    else Enabled(s, events[0]) && Reaches(Step(s, events[0]), events[1..], t)
  }

  /** In every run, reboots included, the leaders of all groups hit had been recorded as live agents. */
  lemma {:induction false} HitWereRecorded(s: State, events: seq<Event>, t: State)
    requires Inv(s) && Reaches(s, events, t)
    ensures Inv(t) && t.hit <= t.written
    decreases |events|
  {
    if events != [] {
      StepInv(s, events[0]);
      HitWereRecorded(Step(s, events[0]), events[1..], t);
    }
  }

  /** A second startup, with no tick in between, signals nothing and changes nothing. */
  lemma SecondStartupIsInert(s: State)
    requires s.record.Saved?
    ensures Step(Step(s, Startup), Startup) == Step(s, Startup)
  {
  }

  // ------------------------------------------------------------ when a stranger dies

  /** First cause: the process was not ours when it was recorded, and is the one recorded. */
  ghost predicate RecordedAsStranger(s: State, id: Identity) {
    !s.stale && id in s.recorded && !s.recorded[id] && id !in s.reused
  }

  /** Second cause: the pid changed owner within one tick, and a stranger has it now. */
  ghost predicate ReusedByStranger(s: State, id: Identity) {
    !s.stale && id in s.reused && id in s.owner && !s.owner[id]
  }

  /** Third cause: the record outlived a reboot, and a stranger was born with a recorded pid at the recorded tick. */
  ghost predicate RebornAsStranger(s: State, id: Identity) {
    s.stale && id in s.owner && !s.owner[id]
  }

  ghost predicate Caused(s: State, id: Identity) {
    RecordedAsStranger(s, id) || ReusedByStranger(s, id) || RebornAsStranger(s, id)
  }

  /** A saved agent that is alive and leads its group, for one of the three causes, as a stranger. */
  ghost predicate Endangered(s: State) {
    s.record.Saved? && exists a :: a in s.record.agents && LiveLeader(s.procs, a) && Caused(s, IdOf(a))
  }

  /** The three causes are the only ones. */
  lemma StrangerHasACause(s: State, a: TrackedAgent)
    requires Inv(s) && s.record.Saved? && a in s.record.agents && Matches(s.procs, a)
    ensures !s.procs[a.pid].ours <==> Caused(s, IdOf(a))
  {
    assert IdOf(a) in Identities(s.record.agents);
  }

  lemma NoDeadStrangers(procs: Procs, left: Procs)
    ensures DeadStrangers(procs, left) == {} <==> StrangersSurvive(procs, left)
  {
    if p :| p in procs && !procs[p].ours && p !in left {
      assert Identity(p, procs[p].startTime) in DeadStrangers(procs, left);
    }
  }

  /** One startup kills a stranger if and only if some saved live leader is one. */
  lemma StartupStrikesIff(s: State)
    requires Inv(s)
    ensures Step(s, Startup).struck == {} <==> s.struck == {} && !Endangered(s)
  {
    if s.record.Saved? {
      StrangersSurviveIff(s.procs, s.record.agents);
      NoDeadStrangers(s.procs, ReapAll(s.procs, s.record.agents).0);
      forall a | a in s.record.agents && Matches(s.procs, a) ensures !s.procs[a.pid].ours <==> Caused(s, IdOf(a)) {
        StrangerHasACause(s, a);
      }
    }
  }

  /** Some startup of the run finds a stranger among the saved live leaders. */
  ghost predicate EverEndangered(s: State, events: seq<Event>)
    decreases |events|
  {
    events != [] && Enabled(s, events[0]) &&
    ((events[0].Startup? && Endangered(s)) || EverEndangered(Step(s, events[0]), events[1..]))
  }

  /** Stated from any coherent state, for the induction. */
  lemma {:induction false} StrangerDiesIff(s: State, events: seq<Event>, t: State)
    requires Inv(s) && Reaches(s, events, t)
    ensures t.struck == {} <==> s.struck == {} && !EverEndangered(s, events)
    decreases |events|
  {
    if events != [] {
      var next := Step(s, events[0]);
      StepInv(s, events[0]);
      StrangerDiesIff(next, events[1..], t);
      if events[0].Startup? {
        StartupStrikesIff(s);
      } else {
        assert next.struck == s.struck;
      }
    }
  }

  /**
    In every run, with reboots, no process that is not ours ever dies of a startup, recorded or not, if and only if
    no startup finds a saved agent alive and leading its group that was not ours when it was recorded, or whose pid
    passed to a stranger within the tick of its birth, or whose pid and tick a stranger has again after a reboot.
    */
  lemma OnlyOursAreHit(events: seq<Event>, t: State)
    requires Reaches(BOOT, events, t)
    ensures t.struck == {} <==> !EverEndangered(BOOT, events)
    ensures t.hit <= t.written
  {
    StrangerDiesIff(BOOT, events, t);
    HitWereRecorded(BOOT, events, t);
  }

  /** The step brings in no cause: what is listed is ours, no identity changes owner, no record is left to a reboot. */
  ghost predicate Careful(s: State, e: Event) {
    match e
    case RecordTick(agents) =>
      forall i :: 0 <= i < |agents| && agents[i].0 in s.procs ==> s.procs[agents[i].0].ours
    case Spawn(pid, _, _, ours) => Identity(pid, s.now) in s.owner ==> s.owner[Identity(pid, s.now)] == ours
    case Reboot => !s.record.Saved?
    case _ => true
  }

  ghost predicate AlwaysCareful(s: State, events: seq<Event>)
    decreases |events|
  {
    events == [] || (Enabled(s, events[0]) && Careful(s, events[0]) && AlwaysCareful(Step(s, events[0]), events[1..]))
  }

  lemma {:induction false} TrackedAreOurs(procs: Procs, agents: seq<(nat, string)>)
    requires forall i :: 0 <= i < |agents| && agents[i].0 in procs ==> procs[agents[i].0].ours
    ensures forall id :: id in Owners(procs, Track(procs, agents)) ==> Owners(procs, Track(procs, agents))[id]
  {
    if agents != [] {
      var before := agents[..|agents| - 1];
      forall i | 0 <= i < |before| && before[i].0 in procs ensures procs[before[i].0].ours {
        assert agents[i] == before[i];
      }
      TrackedAreOurs(procs, before);
      forall id | id in Owners(procs, Track(procs, agents)) ensures procs[id.pid].ours {
        assert id in Owners(procs, Track(procs, before)) || id.pid == agents[|agents| - 1].0;
      }
    }
  }

  /** No cause has come in so far. */
  ghost predicate Unthreatened(s: State) {
    s.reused == {} && !s.stale && forall id :: id in s.recorded ==> s.recorded[id]
  }

  lemma CarefulStep(s: State, e: Event)
    requires Unthreatened(s) && Enabled(s, e) && Careful(s, e)
    ensures Unthreatened(Step(s, e))
  {
    if e.RecordTick? { TrackedAreOurs(s.procs, e.agents); }
  }

  lemma UnthreatenedIsSafe(s: State)
    requires Unthreatened(s)
    ensures !Endangered(s)
  {
  }

  lemma {:induction false} CarefulRun(s: State, events: seq<Event>)
    requires Unthreatened(s) && AlwaysCareful(s, events)
    ensures !EverEndangered(s, events)
    decreases |events|
  {
    if events != [] {
      UnthreatenedIsSafe(s);
      CarefulStep(s, events[0]);
      CarefulRun(Step(s, events[0]), events[1..]);
    }
  }

  /** Without any of the causes, no run kills a stranger, recorded or not. */
  lemma CarefulRunIsSafe(events: seq<Event>, t: State)
    requires AlwaysCareful(BOOT, events) && Reaches(BOOT, events, t)
    ensures !EverEndangered(BOOT, events) && t.struck == {}
  {
    CarefulRun(BOOT, events);
    OnlyOursAreHit(events, t);
  }

  // ------------------------------------------------------------ every cause happens

  lemma OneTracked(procs: Procs, pid: nat)
    requires pid in procs
    ensures Track(procs, [(pid, "x")]) == [TrackedAgent(pid, procs[pid].startTime, "x")]
  {
    assert [(pid, "x")][..0] == [];
  }

  lemma ReapOne(procs: Procs, a: TrackedAgent)
    ensures ReapAll(procs, [a]).0 == if Matches(procs, a) then KillGroup(procs, a.pid) else procs
  {
    var agents := [a];
    assert agents[..|agents| - 1] == [] && agents[|agents| - 1] == a;
    assert ReapAll(procs, []).0 == procs;
  }

  lemma OneReaped(s: State, a: TrackedAgent)
    requires s.record == Saved([a])
    ensures Step(s, Startup).procs == if Matches(s.procs, a) then KillGroup(s.procs, a.pid) else s.procs
  {
    ReapOne(s.procs, a);
  }

  /** Seven is launched, ends, and two ticks later is somebody else's; a tab lists it still. */
  lemma StaleListing() returns (s: State)
    ensures var gone := Step(Step(Step(Step(BOOT, Spawn(7, 7, 1, true)), Exit(7)), ClockTick), ClockTick);
            && Enabled(gone, Spawn(7, 7, 1, false))
            && s == Step(Step(gone, Spawn(7, 7, 1, false)), RecordTick([(7, "x")]))
    ensures s.record == Saved([TrackedAgent(7, 2, "x")]) && s.procs == map[7 := Proc(2, 7, 1, false)]
    ensures s.reused == {} && RecordedAsStranger(s, Identity(7, 2))
  {
    var gone := Step(Step(Step(Step(BOOT, Spawn(7, 7, 1, true)), Exit(7)), ClockTick), ClockTick);
    var here := Step(gone, Spawn(7, 7, 1, false));
    OneTracked(here.procs, 7);
    s := Step(here, RecordTick([(7, "x")]));
    var a := TrackedAgent(7, 2, "x");
    assert s.record.agents == [a] && a in s.record.agents;
    assert IdOf(a) in Identities(s.record.agents);
  }

  /**
    A pid reused long after its process ended, while a tab still lists it: the recorder reads the start time of
    the process that is there now, so the stranger passes for the agent and is killed. No tick is shared.
    */
  lemma StalePidKillsAStranger()
    ensures var gone := Step(Step(Step(Step(BOOT, Spawn(7, 7, 1, true)), Exit(7)), ClockTick), ClockTick);
            && Enabled(gone, Spawn(7, 7, 1, false))
            && var listed := Step(Step(gone, Spawn(7, 7, 1, false)), RecordTick([(7, "x")]));
               && listed.reused == {} && RecordedAsStranger(listed, Identity(7, 2))
               && 7 in listed.procs && 7 !in Step(listed, Startup).procs
  {
    var listed := StaleListing();
    OneReaped(listed, TrackedAgent(7, 2, "x"));
  }

  /** Seven is launched and recorded, and ends within the tick. */
  lemma RecordedAndGone() returns (s: State)
    ensures s == Step(Step(Step(BOOT, Spawn(7, 7, 1, true)), RecordTick([(7, "x")])), Exit(7))
    ensures s.record == Saved([TrackedAgent(7, 0, "x")]) && s.procs == map[] && s.now == 0
    ensures s.owner == map[Identity(7, 0) := true]
  {
    var s1 := Step(BOOT, Spawn(7, 7, 1, true));
    OneTracked(s1.procs, 7);
    s := Step(Step(s1, RecordTick([(7, "x")])), Exit(7));
  }

  lemma StrangerComes(s: State, startTime: nat)
    requires s.record == Saved([TrackedAgent(7, startTime, "x")]) && s.procs == map[]
    ensures 7 in Step(Step(s, Spawn(7, 7, 1, false)), Startup).procs <==> s.now != startTime
  {
    OneReaped(Step(s, Spawn(7, 7, 1, false)), TrackedAgent(7, startTime, "x"));
  }

  /** A pid reused within the tick of its recorded process keeps the recorded identity; a tick later it does not. */
  lemma SameTickReuseKillsAStranger()
    ensures var stranger := Spawn(7, 7, 1, false);
            var s3 := Step(Step(Step(BOOT, Spawn(7, 7, 1, true)), RecordTick([(7, "x")])), Exit(7));
            && Enabled(s3, stranger) && Enabled(Step(s3, ClockTick), stranger)
            && ReusedByStranger(Step(s3, stranger), Identity(7, 0))
            && 7 !in Step(Step(s3, stranger), Startup).procs
            && 7 in Step(Step(Step(s3, ClockTick), stranger), Startup).procs
  {
    var s3 := RecordedAndGone();
    StrangerComes(s3, 0);
    StrangerComes(Step(s3, ClockTick), 0);
  }

  /** The record outlives a reboot, and a stranger is born with the recorded pid at the recorded tick of the new one. */
  lemma RebootKillsAStranger()
    ensures var stranger := Spawn(7, 7, 1, false);
            var saved := Step(Step(BOOT, Spawn(7, 7, 1, true)), RecordTick([(7, "x")]));
            && Enabled(Step(saved, Reboot), stranger)
            && var here := Step(Step(saved, Reboot), stranger);
               RebornAsStranger(here, Identity(7, 0)) && 7 in here.procs && 7 !in Step(here, Startup).procs
  {
    var s1 := Step(BOOT, Spawn(7, 7, 1, true));
    OneTracked(s1.procs, 7);
    StrangerComes(Step(Step(s1, RecordTick([(7, "x")])), Reboot), 0);
  }

  // ------------------------------------------------------------ leaks are found

  /** The record holds exactly the listed pids that are alive, with the start times they have. */
  lemma {:induction false} TrackedIff(procs: Procs, agents: seq<(nat, string)>, a: TrackedAgent)
    ensures a in Track(procs, agents) <==>
            (a.pid, a.session) in agents && a.pid in procs && procs[a.pid].startTime == a.startTime
  {
    if agents != [] {
      var before, last := agents[..|agents| - 1], agents[|agents| - 1];
      TrackedIff(procs, before, a);
      assert agents == before + [last];
      var own := if last.0 in procs then [TrackedAgent(last.0, procs[last.0].startTime, last.1)] else [];
      assert Track(procs, agents) == Track(procs, before) + own;
    }
  }

  /** The memory of the leaders hit. */
  function RssOf(procs: Procs, hit: seq<Identity>): nat {
    if hit == [] then 0
    else
      var pid := hit[|hit| - 1].pid;
      RssOf(procs, hit[..|hit| - 1]) + (if pid in procs then procs[pid].rssMb else 0)
  }

  /** The report counts the leaders hit and adds up the memory they had. */
  lemma {:induction false} ReportIsOfTheHit(procs: Procs, agents: seq<TrackedAgent>)
    ensures var (_, report, hit) := ReapAll(procs, agents);
      report.killed == |hit| && report.freedMb == RssOf(procs, hit)
  {
    if agents != [] {
      var before, a := agents[..|agents| - 1], agents[|agents| - 1];
      var (left, report, hit) := ReapAll(procs, before);
      ReportIsOfTheHit(procs, before);
      ReapedWereRecordedAndAlive(procs, before);
      if Matches(left, a) {
        assert (hit + [IdOf(a)])[..|hit|] == hit && left[a.pid] == procs[a.pid];
      }
    }
  }

  lemma {:induction false} RecordStays(s: State, events: seq<Event>, t: State)
    requires Reaches(s, events, t) && forall e :: e in events ==> !e.RecordTick? && !e.Startup?
    ensures t.record == s.record
    decreases |events|
  {
    if events != [] { RecordStays(Step(s, events[0]), events[1..], t); }
  }

  lemma SavedLeaderGoes(t: State, a: TrackedAgent)
    requires t.record.Saved? && a in t.record.agents && a.pid > 1 && a.pid in t.procs
    requires t.procs[a.pid].startTime == a.startTime && t.procs[a.pid].pgid == a.pid
    ensures a.pid !in Step(t, Startup).procs
  {
    LeaderGoes(t.procs, t.record.agents, a);
  }

  lemma LeaderGoes(procs: Procs, agents: seq<TrackedAgent>, a: TrackedAgent)
    requires a in agents && a.pid > 1 && a.pid in procs
    requires procs[a.pid].startTime == a.startTime && procs[a.pid].pgid == a.pid
    ensures a.pid !in ReapAll(procs, agents).0
  {
    RecordedAreGone(procs, agents, a);
    ReapedWereRecordedAndAlive(procs, agents);
  }

  /**
    What the record is for: an agent listed at the last tick that still runs, and leads its group, when the program
    starts again, whatever else came and went, is gone after that startup.
    */
  lemma LeakIsReaped(s: State, agents: seq<(nat, string)>, pid: nat, session: string, events: seq<Event>, t: State)
    requires Reaches(Step(s, RecordTick(agents)), events, t) && (pid, session) in agents && pid in s.procs && pid > 1
    requires forall e :: e in events ==> !e.RecordTick? && !e.Startup?
    requires pid in t.procs && t.procs[pid].startTime == s.procs[pid].startTime && t.procs[pid].pgid == pid
    ensures pid !in Step(t, Startup).procs
  {
    var a := TrackedAgent(pid, s.procs[pid].startTime, session);
    RecordStays(Step(s, RecordTick(agents)), events, t);
    TrackedIff(s.procs, agents, a);
    SavedLeaderGoes(t, a);
  }
}
