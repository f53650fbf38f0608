/** The meta gate: a generation counter that lets an idle pump skip rebuilding what cannot have changed. */
module MetaGate {

  /** A tab mutation holds the snapshot lock; inside it the tab changes and the generation is bumped, in any order. */
  datatype Mutator = Outside | Inside(changed: bool, bumped: bool)

  /** `Loaded`: the pump has read the generation and is about to build under the lock. */
  datatype Pump = Ticking | Loaded(generation: nat)

  /** `tab` is everything a meta frame shows; `rebuilds` counts the builds the gate let through. */
  datatype State<T> = State(tab: T, generation: nat, mutator: Mutator,
                            pump: Pump, lastGen: nat, lastMeta: T, sent: seq<T>, rebuilds: nat)

  datatype Event<T> =
    | Enter
    | Change(tab: T)
    | Bump
    | Exit
    | Tick
    | Build

  predicate Enabled<T(==)>(s: State<T>, e: Event<T>) {
    match e
    case Enter => s.mutator.Outside?
    case Change(_) => s.mutator.Inside?
    case Bump => s.mutator.Inside?
    case Exit => s.mutator.Inside? && (s.mutator.changed ==> s.mutator.bumped)
    case Tick => s.pump.Ticking?
    case Build => s.pump.Loaded? && s.mutator.Outside?
  }

  function Step<T(==)>(s: State<T>, e: Event<T>): State<T>
    requires Enabled(s, e)
  {
    match e
    case Enter => s.(mutator := Inside(false, false))
    case Change(tab) => s.(tab := tab, mutator := s.mutator.(changed := true))
    case Bump => s.(generation := s.generation + 1, mutator := s.mutator.(bumped := true))
    case Exit => s.(mutator := Outside)
    case Tick => if s.generation != s.lastGen then s.(pump := Loaded(s.generation)) else s
    case Build =>
      s.(pump := Ticking, lastGen := s.pump.generation, rebuilds := s.rebuilds + 1,
         lastMeta := s.tab, sent := if s.tab != s.lastMeta then s.sent + [s.tab] else s.sent)
  }

  /** The generation the pump has accounted for. */
  function Seen<T>(s: State<T>): nat {
    match s.pump case Ticking => s.lastGen case Loaded(g) => g
  }

  ghost predicate Inv<T>(s: State<T>, first: nat) {
    && s.lastGen <= Seen(s) <= s.generation
    && (s.pump.Loaded? ==> s.lastGen < s.pump.generation)
    && first + s.rebuilds <= s.lastGen
    && (s.generation == s.lastGen ==>
          s.lastMeta == s.tab || (s.mutator.Inside? && s.mutator.changed && !s.mutator.bumped))
    && (s.sent != [] ==> s.sent[|s.sent| - 1] == s.lastMeta)
  }

  /** The pump reads the generation before its first build, so a racing change costs a rebuild, not a miss. */
  ghost predicate Initial<T>(s: State<T>) {
    && s.mutator.Outside? && s.pump.Ticking? && s.rebuilds == 0 && s.sent == [s.lastMeta]
    && s.lastGen <= s.generation
    && (s.generation == s.lastGen ==> s.lastMeta == s.tab)
  }

  /** A change after the bump of its own section leaves the generation ahead of anything read before it. */
  lemma StepInv<T>(s: State<T>, e: Event<T>, first: nat)
    requires Inv(s, first) && Ahead(s) && Enabled(s, e)
    ensures Inv(Step(s, e), first) && Ahead(Step(s, e))
  {
  }

  /** Inside a section that has bumped, the generation is ahead of the last build. */
  ghost predicate Ahead<T>(s: State<T>) {
    s.mutator.Inside? && s.mutator.bumped ==> s.lastGen < s.generation
  }

  ghost predicate Reaches<T>(s: State<T>, events: seq<Event<T>>, t: State<T>)
    decreases |events|
  {
    if events == [] then s == t
    else Enabled(s, events[0]) && Reaches(Step(s, events[0]), events[1..], t)
  }

  lemma {:induction false} ReachableInv<T>(s: State<T>, events: seq<Event<T>>, t: State<T>, first: nat)
    requires Inv(s, first) && Ahead(s) && Reaches(s, events, t)
    ensures Inv(t, first) && Ahead(t)
    decreases |events|
  {
    if events != [] {
      StepInv(s, events[0], first);
      ReachableInv(Step(s, events[0]), events[1..], t, first);
    }
  }

  /**
    Coherence: whenever the generation equals the one the pump last read, the last built meta is what the tab
    would give now, unless a mutator is mid-section with its bump still to come. And the gate lets through
    at most one rebuild per bump.
    */
  lemma GateCoherent<T>(s: State<T>, events: seq<Event<T>>, t: State<T>)
    requires Initial(s) && Reaches(s, events, t)
    ensures t.generation == t.lastGen ==> 
              t.lastMeta == t.tab || (t.mutator.Inside? && t.mutator.changed && !t.mutator.bumped)
    ensures t.rebuilds <= t.generation - s.lastGen
    ensures t.sent != [] ==> t.sent[|t.sent| - 1] == t.lastMeta
  {
    ReachableInv(s, events, t, s.lastGen);
  }

  /** A missed change is impossible: with no section open, a stale viewer has a tick that will rebuild. */
  lemma StaleMeansRebuild<T>(s: State<T>, events: seq<Event<T>>, t: State<T>)
    requires Initial(s) && Reaches(s, events, t) && t.mutator.Outside? && t.pump.Ticking? && t.lastMeta != t.tab
    ensures var u := Step(t, Tick);
            && Enabled(u, Build)
            && Step(u, Build).lastMeta == t.tab && Step(u, Build).sent == t.sent + [t.tab]
  {
    ReachableInv(s, events, t, s.lastGen);
  }

  /** Each meta that was sent differs from the one before it, and the last of them is the last that was built. */
  ghost predicate Changing<T>(s: State<T>) {
    && s.sent != [] && s.sent[|s.sent| - 1] == s.lastMeta
    && forall i :: 0 < i < |s.sent| ==> s.sent[i] != s.sent[i - 1]
  }

  /** A rebuild that comes out the same is not sent again: in no run is a viewer told the same thing twice on end. */
  lemma {:induction false} OnlyChangesAreSent<T>(s: State<T>, events: seq<Event<T>>, t: State<T>)
    requires Changing(s) && Reaches(s, events, t)
    ensures Changing(t)
    decreases |events|
  {
    if events != [] { OnlyChangesAreSent(Step(s, events[0]), events[1..], t); }
  }

  // ------------------------------------------------------------ becoming current

  lemma {:induction false} ReachesAppend<T>(s: State<T>, a: seq<Event<T>>, t: State<T>, b: seq<Event<T>>, u: State<T>)
    requires Reaches(s, a, t) && Reaches(t, b, u)
    ensures Reaches(s, a + b, u)
    decreases |a|
  {
    if a == [] {
      assert a + b == b;
    } else {
      assert (a + b)[0] == a[0] && (a + b)[1..] == a[1..] + b;
      ReachesAppend(Step(s, a[0]), a[1..], t, b, u);
    }
  }

  /** The mutation under way, if any, to its end. */
  lemma SectionEnds<T>(s: State<T>, first: nat) returns (events: seq<Event<T>>, t: State<T>)
    requires Inv(s, first) && Ahead(s)
    ensures Reaches(s, events, t) && Inv(t, first) && Ahead(t) && t.mutator.Outside? && t.tab == s.tab
    ensures t.pump == s.pump
  {
    if s.mutator.Outside? {
      events, t := [], s;
    } else {
      var bumped := Step(s, Bump);
      StepInv(s, Bump, first);
      t := Step(bumped, Exit);
      StepInv(bumped, Exit, first);
      events := [Bump, Exit];
      assert events[1..] == [Exit] && events[1..][1..] == [];
      assert Reaches(t, [], t);
    }
  }

  lemma BuildEnds<T>(s: State<T>, first: nat) returns (events: seq<Event<T>>, t: State<T>)
    requires Inv(s, first) && Ahead(s) && s.mutator.Outside?
    ensures Reaches(s, events, t) && Inv(t, first) && Ahead(t) && t.mutator.Outside? && t.pump.Ticking?
    ensures t.tab == s.tab
    ensures if s.pump.Ticking? then t == s else t.lastMeta == t.tab
  {
    if s.pump.Ticking? {
      events, t := [], s;
    } else {
      t := Step(s, Build);
      StepInv(s, Build, first);
      events := [Build];
      assert events[1..] == [];
      assert Reaches(t, [], t);
    }
  }

  /** From every reachable state the viewer can be told what the tab is, by steps that are then due. */
  lemma CanBecomeCurrent<T>(s: State<T>, events: seq<Event<T>>, t: State<T>) returns (more: seq<Event<T>>, u: State<T>)
    requires Initial(s) && Reaches(s, events, t)
    ensures Reaches(t, more, u) && u.tab == t.tab && u.lastMeta == t.tab
    ensures u.sent != [] ==> u.sent[|u.sent| - 1] == t.tab
  {
    ReachableInv(s, events, t, s.lastGen);
    var a, outside := SectionEnds(t, s.lastGen);
    var b, ticking := BuildEnds(outside, s.lastGen);
    ReachesAppend(t, a, outside, b, ticking);
    var loaded := Step(ticking, Tick);
    StepInv(ticking, Tick, s.lastGen);
    var c, built := BuildEnds(loaded, s.lastGen);
    var tick: seq<Event<T>> := [Tick];
    assert tick[1..] == [] && Reaches(loaded, [], loaded);
    ReachesAppend(t, a + b, ticking, tick, loaded);
    ReachesAppend(t, a + b + tick, loaded, c, built);
    more, u := a + b + tick + c, built;
  }
}
