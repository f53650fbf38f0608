/** Whole histories of the lease registry: exclusion, fences, and what collection can and cannot change. */
module LeaseHistory {
  import opened Text
  import opened Claims

  datatype Op =
    | Grant(key: string, holder: string, ttl: nat, at: nat)
    | Release(key: string, holder: string, at: nat)
    | Get(key: string, at: nat)
    | Active(at: nat)
    | Gc(at: nat)

  datatype Reply =
    | Granted(claim: Claim)
    | Refused(error: GrantError)
    | Released(ok: bool)
    | Found(lease: Option<Claim>)
    | Listed(leases: seq<Claim>)
    | Collected

  ghost function Apply(t: Table, op: Op): (Table, Reply) {
    match op
    case Grant(key, holder, ttl, at) =>
      var (next, r) := GrantStep(t, key, holder, ttl, at);
      (next, match r case Ok(c) => Granted(c) case Err(e) => Refused(e))
    case Release(key, holder, at) =>
      var (next, ok) := ReleaseStep(t, key, holder, at);
      (next, Released(ok))
    case Get(key, at) => (t, Found(GetStep(t, key, at)))
    case Active(at) => (t, Listed(InOrder(t.Live(at))))
    case Gc(at) => (GcStep(t, at), Collected)
  }

  /** One request served by the registry object. */
  method Serve(r: Registry, op: Op) returns (reply: Reply)
    modifies r
    ensures (r.Contents(), reply) == Apply(old(r.Contents()), op)
  {
    match op
    case Grant(key, holder, ttl, at) =>
      var g := r.Grant(key, holder, ttl, at);
      reply := match g case Ok(c) => Granted(c) case Err(e) => Refused(e);
    case Release(key, holder, at) =>
      var ok := r.Release(key, holder, at);
      reply := Released(ok);
    case Get(key, at) =>
      var c := r.Get(key, at);
      reply := Found(c);
    case Active(at) =>
      var s := r.Active(at);
      reply := Listed(s);
    case Gc(at) =>
      r.Gc(at);
      reply := Collected;
  }

  /** The table after a run. */
  ghost function After(t: Table, ops: seq<Op>): Table
    decreases |ops|
  {
    if ops == [] then t else Apply(After(t, ops[..|ops| - 1]), ops[|ops| - 1]).0
  }

  ghost function ReplyAt(t: Table, ops: seq<Op>, i: nat): Reply
    requires i < |ops|
  {
    Apply(After(t, ops[..i]), ops[i]).1
  }

  /** The clock never goes back, and `now` is not before the last request. */
  ghost predicate ClockedTo(ops: seq<Op>, now: nat) {
    && (forall i, j :: 0 <= i <= j < |ops| ==> ops[i].at <= ops[j].at)
    && (forall i :: 0 <= i < |ops| ==> ops[i].at <= now)
  }

  lemma PrefixReply(t: Table, ops: seq<Op>, i: nat)
    requires i + 1 < |ops|
    ensures ReplyAt(t, ops[..|ops| - 1], i) == ReplyAt(t, ops, i)
  {
    assert ops[..|ops| - 1][..i] == ops[..i];
  }

  lemma {:induction false} AfterWellFormed(t: Table, ops: seq<Op>)
    requires t.WellFormed()
    ensures After(t, ops).WellFormed()
    decreases |ops|
  {
    if ops != [] {
      AfterWellFormed(t, ops[..|ops| - 1]);
      ApplyWellFormed(After(t, ops[..|ops| - 1]), ops[|ops| - 1]);
    }
  }

  lemma ApplyWellFormed(t: Table, op: Op)
    requires t.WellFormed()
    ensures Apply(t, op).0.WellFormed()
  {
    if op.Grant? && Apply(t, op).1.Granted? {
      SanitizeIdempotent(op.key, MAX_KEY);
      SanitizeIdempotent(op.holder, MAX_HOLDER);
    }
  }

  // ------------------------------------------------------------ exclusion

  /** Request `m` ends the tenure `c` before its expiry: its holder gives it back, or renews it. */
  ghost predicate Ends(t: Table, ops: seq<Op>, m: nat, c: Claim)
    requires m < |ops|
  {
    EndsBy(ops[m], ReplyAt(t, ops, m), c)
  }

  ghost predicate EndsBy(op: Op, reply: Reply, c: Claim) {
    match reply
    case Released(true) => op.Release? && op.key == c.key && op.holder == c.holder
    case Granted(d) => d.key == c.key && d.holder == c.holder
    case _ => false
  }

  /** What history alone says: the grant made by request `i` is in force at `now`. */
  ghost predicate InForce(t: Table, ops: seq<Op>, i: nat, now: nat) {
    && i < |ops|
    && ReplyAt(t, ops, i).Granted?
    && ReplyAt(t, ops, i).claim.LiveAt(now)
    && forall m :: i < m < |ops| ==> !Ends(t, ops, m, ReplyAt(t, ops, i).claim)
  }

  /** A grant in force is what the table stores for its key. */
  lemma {:induction false} InForceIsStored(t: Table, ops: seq<Op>, i: nat, now: nat)
    requires ClockedTo(ops, now) && InForce(t, ops, i, now)
    ensures var c := ReplyAt(t, ops, i).claim;
            c.key in After(t, ops).claims && After(t, ops).claims[c.key] == c
    decreases |ops|
  {
    var n := |ops| - 1;
    var before := ops[..n];
    if i < n {
      InForceBefore(t, ops, i, now);
      InForceIsStored(t, before, i, ops[n].at);
      StepKeeps(After(t, before), ops[n], ReplyAt(t, ops, i).claim);
    } else {
      GrantStored(After(t, before), ops[n]);
    }
  }

  lemma InForceBefore(t: Table, ops: seq<Op>, i: nat, now: nat)
    requires ClockedTo(ops, now) && InForce(t, ops, i, now) && i < |ops| - 1
    ensures var n, c := |ops| - 1, ReplyAt(t, ops, i).claim;
      && ClockedTo(ops[..n], ops[n].at) && InForce(t, ops[..n], i, ops[n].at) && c.LiveAt(ops[n].at)
      && ReplyAt(t, ops[..n], i) == ReplyAt(t, ops, i) && !EndsBy(ops[n], Apply(After(t, ops[..n]), ops[n]).1, c)
  {
    var n, c := |ops| - 1, ReplyAt(t, ops, i).claim;
    PrefixReply(t, ops, i);
    forall m | i < m < n ensures !Ends(t, ops[..n], m, c) {
      PrefixEnds(t, ops, m, c);
    }
    assert !Ends(t, ops, n, c);
  }

  lemma PrefixEnds(t: Table, ops: seq<Op>, m: nat, c: Claim)
    requires m + 1 < |ops|
    ensures Ends(t, ops[..|ops| - 1], m, c) == Ends(t, ops, m, c)
  {
    PrefixReply(t, ops, m);
  }

  lemma GrantStored(t: Table, op: Op)
    requires Apply(t, op).1.Granted?
    ensures var (next, reply) := Apply(t, op);
      reply.claim.key in next.claims && next.claims[reply.claim.key] == reply.claim
  {
  }

  /** A live lease stays stored through any request that does not end it. */
  lemma StepKeeps(t: Table, op: Op, c: Claim)
    requires c.key in t.claims && t.claims[c.key] == c && c.LiveAt(op.at) && !EndsBy(op, Apply(t, op).1, c)
    ensures var next := Apply(t, op).0; c.key in next.claims && next.claims[c.key] == c
  {
    match op
    case Grant(_, _, _, _) => GrantKeeps(t, op, c);
    case _ =>
  }

  lemma GrantKeeps(t: Table, op: Op, c: Claim)
    requires op.Grant? && c.key in t.claims && t.claims[c.key] == c && c.LiveAt(op.at) && !EndsBy(op, Apply(t, op).1, c)
    ensures var next := Apply(t, op).0; c.key in next.claims && next.claims[c.key] == c
  {
  }

  /** A live entry of the table is a grant in force. */
  lemma {:induction false} StoredIsInForce(ops: seq<Op>, key: string, now: nat) returns (i: nat)
    requires ClockedTo(ops, now)
    requires key in After(EMPTY, ops).claims && After(EMPTY, ops).claims[key].LiveAt(now)
    ensures InForce(EMPTY, ops, i, now) && ReplyAt(EMPTY, ops, i) == Granted(After(EMPTY, ops).claims[key])
    ensures After(EMPTY, ops).claims[key].key == key
    decreases |ops|
  {
    var n := |ops| - 1;
    var c := After(EMPTY, ops).claims[key];
    var before := ops[..n];
    StoredBefore(ops, key);
    if ReplyAt(EMPTY, ops, n) == Granted(c) && c.key == key {
      i := n;
    } else {
      i := StoredIsInForce(before, key, now);
      StillInForce(ops, i, now);
    }
  }

  /** What the last request leaves stored was granted by it, or was stored before and not ended by it. */
  lemma StoredBefore(ops: seq<Op>, key: string)
    requires ops != [] && key in After(EMPTY, ops).claims
    ensures var n, c := |ops| - 1, After(EMPTY, ops).claims[key];
      || (ReplyAt(EMPTY, ops, n) == Granted(c) && c.key == key)
      || (&& key in After(EMPTY, ops[..n]).claims && After(EMPTY, ops[..n]).claims[key] == c
          && (c.key == key ==> !Ends(EMPTY, ops, n, c)))
  {
    StepStores(After(EMPTY, ops[..|ops| - 1]), ops[|ops| - 1], key);
  }

  ghost predicate CameFrom(t: Table, op: Op, key: string, c: Claim) {
    var reply := Apply(t, op).1;
    || (reply == Granted(c) && c.key == key)
    || (key in t.claims && t.claims[key] == c && (c.key == key ==> !EndsBy(op, reply, c)))
  }

  lemma StepStores(t: Table, op: Op, key: string)
    requires key in Apply(t, op).0.claims
    ensures CameFrom(t, op, key, Apply(t, op).0.claims[key])
  {
    match op
    case Grant(_, _, _, _) => GrantStores(t, op, key);
    case Release(_, _, _) => ReleaseStores(t, op, key);
    case _ =>
  }

  lemma GrantStores(t: Table, op: Op, key: string)
    requires op.Grant? && key in Apply(t, op).0.claims
    ensures CameFrom(t, op, key, Apply(t, op).0.claims[key])
  {
  }

  lemma ReleaseStores(t: Table, op: Op, key: string)
    requires op.Release? && key in Apply(t, op).0.claims
    ensures CameFrom(t, op, key, Apply(t, op).0.claims[key])
  {
  }

  lemma StillInForce(ops: seq<Op>, i: nat, now: nat)
    requires ops != [] && InForce(EMPTY, ops[..|ops| - 1], i, now)
    requires !Ends(EMPTY, ops, |ops| - 1, ReplyAt(EMPTY, ops[..|ops| - 1], i).claim)
    ensures InForce(EMPTY, ops, i, now) && ReplyAt(EMPTY, ops, i) == ReplyAt(EMPTY, ops[..|ops| - 1], i)
  {
    var n := |ops| - 1;
    var before := ops[..n];
    forall m | i <= m < n ensures ReplyAt(EMPTY, before, m) == ReplyAt(EMPTY, ops, m) { PrefixReply(EMPTY, ops, m); }
    var c := ReplyAt(EMPTY, ops, i).claim;
    forall m | i < m <= n ensures !Ends(EMPTY, ops, m, c) {
      if m < n { assert !Ends(EMPTY, before, m, c); }
    }
  }

  /**
    The lookup tells exactly what history says: it answers a lease if and only if
    that lease was granted, has not expired, and was neither given back nor renewed.
    */
  lemma LookupIsHistory(ops: seq<Op>, key: string, now: nat, c: Claim)
    requires ClockedTo(ops, now)
    ensures GetStep(After(EMPTY, ops), key, now) == Some(c) <==>
            c.key == key && exists i :: InForce(EMPTY, ops, i, now) && ReplyAt(EMPTY, ops, i) == Granted(c)
  {
    if GetStep(After(EMPTY, ops), key, now) == Some(c) {
      var i := StoredIsInForce(ops, key, now);
    }
    if i :| c.key == key && InForce(EMPTY, ops, i, now) && ReplyAt(EMPTY, ops, i) == Granted(c) {
      InForceIsStored(EMPTY, ops, i, now);
    }
  }

  /** Mutual exclusion: at any moment at most one grant on a key is in force. */
  lemma OneInForce(t: Table, ops: seq<Op>, i: nat, j: nat, now: nat)
    requires ClockedTo(ops, now) && InForce(t, ops, i, now) && InForce(t, ops, j, now)
    requires ReplyAt(t, ops, i).claim.key == ReplyAt(t, ops, j).claim.key
    ensures i == j
  {
    InForceIsStored(t, ops, i, now);
    InForceIsStored(t, ops, j, now);
    var lo, hi := if i < j then i else j, if i < j then j else i;
    if lo != hi {
      assert ReplyAt(t, ops, lo) == ReplyAt(t, ops, hi);
      assert Ends(t, ops, hi, ReplyAt(t, ops, lo).claim);
    }
  }

  /** The tenure of grant `i` is over before request `j`: expired, given back, or renewed. */
  ghost predicate OverBefore(t: Table, ops: seq<Op>, i: nat, j: nat)
    requires i < j < |ops| && ReplyAt(t, ops, i).Granted?
  {
    || ReplyAt(t, ops, i).claim.expiresMs <= ops[j].at
    || exists m :: i < m < j && Ends(t, ops, m, ReplyAt(t, ops, i).claim)
  }

  /** Tenures of two holders on one key never overlap: the earlier is over when the later starts. */
  lemma TenuresDisjoint(t: Table, ops: seq<Op>, i: nat, j: nat, now: nat)
    requires ClockedTo(ops, now) && i < j < |ops|
    requires ReplyAt(t, ops, i).Granted? && ReplyAt(t, ops, j).Granted?
    requires ReplyAt(t, ops, i).claim.key == ReplyAt(t, ops, j).claim.key
    requires ReplyAt(t, ops, i).claim.holder != ReplyAt(t, ops, j).claim.holder
    ensures OverBefore(t, ops, i, j)
    ensures ReplyAt(t, ops, j).claim.grantedMs == ops[j].at
  {
    var before := ops[..j];
    var c := ReplyAt(t, ops, i).claim;
    forall m | i <= m < j ensures ReplyAt(t, before, m) == ReplyAt(t, ops, m) {
      assert before[..m] == ops[..m];
    }
    if !OverBefore(t, ops, i, j) {
      forall m | i < m < j ensures !Ends(t, before, m, c) { assert !Ends(t, ops, m, c); }
      InForceIsStored(t, before, i, ops[j].at);
      assert false;
    }
  }

  /**
    The same without any order of clocks: a tenure is over by the time of some request served after it, up to the
    one that takes its place, or was given back or renewed in between.
    */
  ghost predicate OverInTurn(t: Table, ops: seq<Op>, i: nat, j: nat)
    requires i < j < |ops| && ReplyAt(t, ops, i).Granted?
  {
    var c := ReplyAt(t, ops, i).claim;
    || (exists k :: i < k <= j && c.expiresMs <= ops[k].at)
    || exists m :: i < m < j && Ends(t, ops, m, c)
  }

  ghost predicate StoredIn(t: Table, c: Claim) {
    c.key in t.claims && t.claims[c.key] == c
  }

  /** A granted lease stays stored until a request comes at which it has expired, or that ends it. */
  lemma {:induction false} StoredOrOver(t: Table, ops: seq<Op>, i: nat, n: nat)
    requires i < n <= |ops| && ReplyAt(t, ops, i).Granted?
    ensures var c := ReplyAt(t, ops, i).claim;
      || StoredIn(After(t, ops[..n]), c)
      || (exists k :: i < k < n && c.expiresMs <= ops[k].at)
      || exists m :: i < m < n && Ends(t, ops, m, c)
    decreases n
  {
    assert ops[..n][..n - 1] == ops[..n - 1];
    if n == i + 1 {
      GrantStored(After(t, ops[..i]), ops[i]);
    } else {
      StoredOrOver(t, ops, i, n - 1);
      var c := ReplyAt(t, ops, i).claim;
      if StoredIn(After(t, ops[..n - 1]), c) && ops[n - 1].at < c.expiresMs && !Ends(t, ops, n - 1, c) {
        StepKeeps(After(t, ops[..n - 1]), ops[n - 1], c);
      }
    }
  }

  lemma HeldIsRefused(t: Table, op: Op, c: Claim)
    requires StoredIn(t, c) && c.LiveAt(op.at) && Apply(t, op).1.Granted? && Apply(t, op).1.claim.key == c.key
    ensures Apply(t, op).1.claim.holder == c.holder
  {
  }

  /** In the order the registry served them, tenures of two holders on one key take turns, whatever their clocks. */
  lemma TenuresTakeTurns(t: Table, ops: seq<Op>, i: nat, j: nat)
    requires i < j < |ops| && ReplyAt(t, ops, i).Granted? && ReplyAt(t, ops, j).Granted?
    requires ReplyAt(t, ops, i).claim.key == ReplyAt(t, ops, j).claim.key
    requires ReplyAt(t, ops, i).claim.holder != ReplyAt(t, ops, j).claim.holder
    ensures OverInTurn(t, ops, i, j)
  {
    var c := ReplyAt(t, ops, i).claim;
    StoredOrOver(t, ops, i, j);
    if StoredIn(After(t, ops[..j]), c) && ops[j].at < c.expiresMs {
      HeldIsRefused(After(t, ops[..j]), ops[j], c);
    }
  }

  // ------------------------------------------------------------ fences

  ghost function Grants(t: Table, ops: seq<Op>): nat
    decreases |ops|
  {
    if ops == [] then 0
    else Grants(t, ops[..|ops| - 1]) + (if ReplyAt(t, ops, |ops| - 1).Granted? then 1 else 0)
  }

  /** The counter after `g` increments. */
  ghost function Counter(start: nat, g: nat): nat {
    if g == 0 then start else NextFence(Counter(start, g - 1))
  }

  lemma {:induction false} CounterBelow(start: nat, g: nat)
    requires start + g <= U64_MAX
    ensures Counter(start, g) == start + g
  {
    if g > 0 { CounterBelow(start, g - 1); }
  }

  lemma {:induction false} CounterCounts(t: Table, ops: seq<Op>)
    ensures After(t, ops).nextFence == Counter(t.nextFence, Grants(t, ops))
    decreases |ops|
  {
    if ops != [] {
      var n := |ops| - 1;
      CounterCounts(t, ops[..n]);
      StepCounts(After(t, ops[..n]), ops[n]);
    }
  }

  lemma StepCounts(t: Table, op: Op)
    ensures Apply(t, op).0.nextFence == if Apply(t, op).1.Granted? then NextFence(t.nextFence) else t.nextFence
    ensures Apply(t, op).1.Granted? ==> Apply(t, op).1.claim.fence == NextFence(t.nextFence)
  {
  }

  lemma {:induction false} GrantsMonotone(t: Table, ops: seq<Op>, i: nat, j: nat)
    requires i <= j <= |ops|
    ensures Grants(t, ops[..i]) <= Grants(t, ops[..j])
    decreases j
  {
    if i < j {
      GrantsMonotone(t, ops, i, j - 1);
      assert ops[..j][..j - 1] == ops[..j - 1];
    }
  }

  lemma GrantsNext(t: Table, ops: seq<Op>, i: nat)
    requires i < |ops|
    ensures Grants(t, ops[..i + 1]) == Grants(t, ops[..i]) + (if ReplyAt(t, ops, i).Granted? then 1 else 0)
  {
    var s := ops[..i + 1];
    assert s[..|s| - 1] == ops[..i] && s[i] == ops[i] && s[..i] == ops[..i];
  }

  lemma FenceFollows(t: Table, ops: seq<Op>, i: nat)
    requires i < |ops| && ReplyAt(t, ops, i).Granted?
    ensures ReplyAt(t, ops, i).claim.fence == NextFence(Counter(t.nextFence, Grants(t, ops[..i])))
  {
    CounterCounts(t, ops[..i]);
    StepCounts(After(t, ops[..i]), ops[i]);
  }

  lemma CounterNext(start: nat, g: nat, next: nat)
    requires next == g + 1
    ensures Counter(start, next) == NextFence(Counter(start, g))
  {
  }

  /** The fence of a grant counts the grants so far. */
  lemma FenceCounts(t: Table, ops: seq<Op>, i: nat)
    requires i < |ops| && ReplyAt(t, ops, i).Granted?
    ensures Grants(t, ops[..i + 1]) == Grants(t, ops[..i]) + 1
    ensures ReplyAt(t, ops, i).claim.fence == Counter(t.nextFence, Grants(t, ops[..i + 1]))
  {
    GrantsNext(t, ops, i);
    FenceFollows(t, ops, i);
    CounterNext(t.nextFence, Grants(t, ops[..i]), Grants(t, ops[..i + 1]));
  }

  /** Every fence of the run is above the starting counter and above every earlier fence. */
  ghost predicate FencesClimb(t: Table, ops: seq<Op>) {
    && (forall i :: 0 <= i < |ops| && ReplyAt(t, ops, i).Granted? ==> ReplyAt(t, ops, i).claim.fence > t.nextFence)
    && (forall i, j :: 0 <= i < j < |ops| && ReplyAt(t, ops, i).Granted? && ReplyAt(t, ops, j).Granted? ==>
          ReplyAt(t, ops, i).claim.fence < ReplyAt(t, ops, j).claim.fence)
  }

  lemma LastGrant(t: Table, ops: seq<Op>, g: nat)
    requires ops != [] && Grants(t, ops[..|ops| - 1]) < g <= Grants(t, ops)
    ensures ReplyAt(t, ops, |ops| - 1).Granted? && Grants(t, ops[..|ops|]) == g
  {
    assert ops[..|ops|] == ops;
  }

  lemma {:induction false} GrantExists(t: Table, ops: seq<Op>, g: nat) returns (i: nat)
    requires 0 < g <= Grants(t, ops)
    ensures i < |ops| && ReplyAt(t, ops, i).Granted? && Grants(t, ops[..i + 1]) == g
    decreases |ops|
  {
    var n := |ops| - 1;
    if g <= Grants(t, ops[..n]) {
      i := GrantExists(t, ops[..n], g);
      PrefixReply(t, ops, i);
      assert ops[..n][..i + 1] == ops[..i + 1];
    } else {
      i := n;
      LastGrant(t, ops, g);
    }
  }

  /** Fences climb exactly as long as the 64-bit counter does not wrap. */
  lemma FencesClimbIff(t: Table, ops: seq<Op>)
    requires t.nextFence <= U64_MAX
    ensures FencesClimb(t, ops) <==> t.nextFence + Grants(t, ops) <= U64_MAX
  {
    if t.nextFence + Grants(t, ops) <= U64_MAX {
      forall i | 0 <= i < |ops| && ReplyAt(t, ops, i).Granted?
        ensures ReplyAt(t, ops, i).claim.fence == t.nextFence + Grants(t, ops[..i]) + 1
      {
        FenceBelow(t, ops, i);
      }
      forall i, j | 0 <= i < j < |ops| && ReplyAt(t, ops, i).Granted? && ReplyAt(t, ops, j).Granted?
        ensures ReplyAt(t, ops, i).claim.fence < ReplyAt(t, ops, j).claim.fence
      {
        FenceCounts(t, ops, i);
        GrantsMonotone(t, ops, i + 1, j);
      }
    } else {
      var i := WrappingGrant(t, ops);
      assert ReplyAt(t, ops, i).claim.fence == 0;
    }
  }

  lemma FenceBelow(t: Table, ops: seq<Op>, i: nat)
    requires t.nextFence + Grants(t, ops) <= U64_MAX && i < |ops| && ReplyAt(t, ops, i).Granted?
    ensures ReplyAt(t, ops, i).claim.fence == t.nextFence + Grants(t, ops[..i]) + 1
  {
    assert ops[..|ops|] == ops;
    FenceCounts(t, ops, i);
    GrantsMonotone(t, ops, i + 1, |ops|);
    CounterBelow(t.nextFence, Grants(t, ops[..i + 1]));
  }

  lemma WrappingGrant(t: Table, ops: seq<Op>) returns (i: nat)
    requires t.nextFence <= U64_MAX < t.nextFence + Grants(t, ops)
    ensures i < |ops| && ReplyAt(t, ops, i).Granted? && ReplyAt(t, ops, i).claim.fence == 0
  {
    var g := U64_MAX + 1 - t.nextFence;
    i := GrantExists(t, ops, g);
    FenceCounts(t, ops, i);
    CounterBelow(t.nextFence, g - 1);
  }

  // ------------------------------------------------------------ collection

  /** Two tables no request at or after `now` can tell apart. */
  ghost predicate Same(a: Table, b: Table, now: nat) {
    a.Live(now) == b.Live(now) && a.nextFence == b.nextFence
  }

  lemma SameLater(a: Table, b: Table, now: nat, later: nat)
    requires Same(a, b, now) && now <= later
    ensures Same(a, b, later)
  {
    forall k | k in a.Live(later) ensures k in b.Live(later) && a.Live(later)[k] == b.Live(later)[k] {
      assert k in a.Live(now);
    }
    forall k | k in b.Live(later) ensures k in a.Live(later) {
      assert k in b.Live(now);
    }
  }

  lemma SameAt(a: Table, b: Table, now: nat, key: string)
    requires Same(a, b, now)
    ensures key in a.claims && a.claims[key].LiveAt(now) <==> key in b.claims && b.claims[key].LiveAt(now)
    ensures key in a.claims && a.claims[key].LiveAt(now) ==> a.claims[key] == b.claims[key]
  {
    assert key in a.Live(now) <==> key in b.Live(now);
    if key in a.Live(now) { assert a.Live(now)[key] == b.Live(now)[key]; }
  }

  /** Indistinguishable tables answer alike and stay indistinguishable. */
  lemma ApplySame(a: Table, b: Table, op: Op)
    requires Same(a, b, op.at)
    ensures Apply(a, op).1 == Apply(b, op).1 && Same(Apply(a, op).0, Apply(b, op).0, op.at)
  {
    var a', b' := Apply(a, op).0, Apply(b, op).0;
    match op
    case Grant(key, holder, ttl, at) =>
      var k := Sanitize(key, MAX_KEY);
      if k.Ok? && Apply(a, op).1.Granted? {
        SameAt(a, b, at, k.value);
        GrantLive(a, k.value, Apply(a, op).1.claim, at);
        GrantLive(b, k.value, Apply(a, op).1.claim, at);
      } else if k.Ok? {
        SameAt(a, b, at, k.value);
      }
    case Release(key, holder, at) =>
      SameAt(a, b, at, key);
      if MayRelease(a, key, holder, at) {
        assert a'.Live(at) == a.Live(at) - {key};
        assert b'.Live(at) == b.Live(at) - {key};
      }
    case Get(key, at) => SameAt(a, b, at, key);
    case Active(at) =>
    case Gc(at) =>
      assert a'.Live(at) == a.Live(at);
      assert b'.Live(at) == b.Live(at);
  }

  lemma GrantLive(t: Table, key: string, c: Claim, now: nat)
    ensures Table(t.claims[key := c], c.fence).Live(now) ==
            if c.LiveAt(now) then t.Live(now)[key := c] else t.Live(now) - {key}
  {
  }

  /** The run with every collection left out. */
  function NoGc(ops: seq<Op>): seq<Op>
    decreases |ops|
  {
    if ops == [] then []
    else NoGc(ops[..|ops| - 1]) + (if ops[|ops| - 1].Gc? then [] else [ops[|ops| - 1]])
  }

  /** What the callers of a run see. */
  ghost function Observed(t: Table, ops: seq<Op>): seq<Reply>
    decreases |ops|
  {
    if ops == [] then []
    else Observed(t, ops[..|ops| - 1]) + (if ops[|ops| - 1].Gc? then [] else [ReplyAt(t, ops, |ops| - 1)])
  }

  lemma GcSame(a: Table, b: Table, now: nat)
    requires Same(a, b, now)
    ensures Same(GcStep(a, now), b, now)
  {
    assert GcStep(a, now).Live(now) == a.Live(now);
  }

  lemma NoGcSnoc(t: Table, kept: seq<Op>, op: Op)
    requires !op.Gc?
    ensures After(t, kept + [op]) == Apply(After(t, kept), op).0
    ensures Observed(t, kept + [op]) == Observed(t, kept) + [Apply(After(t, kept), op).1]
  {
    assert (kept + [op])[..|kept|] == kept;
  }

  /** Collection is unobservable: run at any points of any run, it changes no answer and no fence. */
  lemma {:induction false} GcUnobservable(t: Table, ops: seq<Op>, now: nat)
    requires ClockedTo(ops, now)
    ensures Observed(t, ops) == Observed(t, NoGc(ops))
    ensures Same(After(t, ops), After(t, NoGc(ops)), now)
    decreases |ops|
  {
    if ops != [] {
      var n := |ops| - 1;
      var before, op := ops[..n], ops[n];
      GcUnobservable(t, before, op.at);
      if op.Gc? {
        GcLast(t, ops);
        GcSame(After(t, before), After(t, NoGc(before)), op.at);
      } else {
        RequestLast(t, ops);
        ApplySame(After(t, before), After(t, NoGc(before)), op);
      }
      SameLater(After(t, ops), After(t, NoGc(ops)), op.at, now);
    }
  }

  lemma GcLast(t: Table, ops: seq<Op>)
    requires ops != [] && ops[|ops| - 1].Gc?
    ensures var before := ops[..|ops| - 1];
      && NoGc(ops) == NoGc(before) && Observed(t, ops) == Observed(t, before)
      && After(t, ops) == GcStep(After(t, before), ops[|ops| - 1].at)
  {
    assert NoGc(ops) == NoGc(ops[..|ops| - 1]) + [];
  }

  lemma RequestLast(t: Table, ops: seq<Op>)
    requires ops != [] && !ops[|ops| - 1].Gc?
    ensures var before, op := ops[..|ops| - 1], ops[|ops| - 1];
      && After(t, ops) == Apply(After(t, before), op).0
      && After(t, NoGc(ops)) == Apply(After(t, NoGc(before)), op).0
      && Observed(t, ops) == Observed(t, before) + [Apply(After(t, before), op).1]
      && Observed(t, NoGc(ops)) == Observed(t, NoGc(before)) + [Apply(After(t, NoGc(before)), op).1]
  {
    NoGcSnoc(t, NoGc(ops[..|ops| - 1]), ops[|ops| - 1]);
  }

  /** `Same` is exactly observational equality: two tables answer every future alike if and only if they are `Same`. */
  lemma SameIsObservable(a: Table, b: Table, now: nat)
    requires a.WellFormed() && b.WellFormed()
    ensures Same(a, b, now) <==>
            forall op: Op :: op.at == now ==> Apply(a, op).1 == Apply(b, op).1
  {
    if Same(a, b, now) {
      forall op: Op | op.at == now ensures Apply(a, op).1 == Apply(b, op).1 { ApplySame(a, b, op); }
    } else if forall op: Op :: op.at == now ==> Apply(a, op).1 == Apply(b, op).1 {
      AnswersTell(a, b, now);
      assert false;
    }
  }

  lemma AnswersTell(a: Table, b: Table, now: nat)
    requires a.WellFormed() && b.WellFormed()
    requires forall op: Op :: op.at == now ==> Apply(a, op).1 == Apply(b, op).1
    ensures Same(a, b, now)
  {
    var list := Active(now);
    assert list.at == now && Apply(a, list).1 == Apply(b, list).1;
    ListingTells(a.Live(now), b.Live(now));
    GrantTells(a, b, now);
  }

  lemma ListingTells(a: map<string, Claim>, b: map<string, Claim>)
    requires forall k :: k in a ==> a[k].key == k
    requires forall k :: k in b ==> b[k].key == k
    requires InOrder(a) == InOrder(b)
    ensures a == b
  {
    InOrderLists(a);
    InOrderLists(b);
    ListsOnce(InOrder(a), a, b);
    ListsOnce(InOrder(a), b, a);
    assert a.Keys == b.Keys;
  }

  lemma ListsOnce(s: seq<Claim>, m: map<string, Claim>, n: map<string, Claim>)
    requires Lists(s, m) && Lists(s, n) && forall k :: k in m ==> m[k].key == k
    ensures forall k :: k in m ==> k in n && n[k] == m[k]
  {
    forall k | k in m ensures k in n && n[k] == m[k] {
      var i :| 0 <= i < |s| && s[i] == m[k];
    }
  }

  lemma GrantTells(a: Table, b: Table, now: nat)
    requires a.WellFormed() && b.WellFormed() && a.Live(now) == b.Live(now)
    requires forall op: Op :: op.at == now ==> Apply(a, op).1 == Apply(b, op).1
    ensures a.nextFence == b.nextFence
  {
    var key := "k";
    assert Trim(key) == key && !IsControl('k');
    assert Sanitize(key, MAX_KEY) == Ok(key);
    SameClaims(a, b, now, key);
    var holder := if key in a.Live(now) then a.claims[key].holder else key;
    var op := Grant(key, holder, 0, now);
    assert Apply(a, op).1 == Apply(b, op).1;
    assert Sanitize(holder, MAX_HOLDER) == Ok(holder);
    assert Apply(a, op).1.Granted? && Apply(b, op).1.Granted?;
  }

  lemma SameClaims(a: Table, b: Table, now: nat, key: string)
    requires a.Live(now) == b.Live(now)
    ensures key in a.claims && a.claims[key].LiveAt(now) <==> key in b.claims && b.claims[key].LiveAt(now)
    ensures key in a.Live(now) ==> a.claims[key] == b.claims[key]
  {
    assert key in a.Live(now) <==> key in b.Live(now);
    if key in a.Live(now) { assert a.Live(now)[key] == b.Live(now)[key]; }
  }

  // ------------------------------------------------------------ a clock read twice

  /** The lease on `key` lapses between the caller's clock read and the collection's. */
  ghost predicate LapsesBetween(t: Table, key: string, at: nat, gcAt: nat) {
    key in t.claims && at < t.claims[key].expiresMs <= gcAt
  }

  /**
    A request carries the time its caller read; the host collects at a later read.
    The request is disturbed when a lease it depends on lapses between the two.
    */
  ghost predicate Disturbed(t: Table, op: Op, gcAt: nat) {
    match op
    case Grant(key, holder, _, at) =>
      var k, h := Sanitize(key, MAX_KEY), Sanitize(holder, MAX_HOLDER);
      k.Ok? && h.Ok? && LapsesBetween(t, k.value, at, gcAt) && t.claims[k.value].holder != h.value
    case Release(key, holder, at) => LapsesBetween(t, key, at, gcAt) && t.claims[key].holder == holder
    case Get(key, at) => LapsesBetween(t, key, at, gcAt)
    case Active(at) => exists key :: LapsesBetween(t, key, at, gcAt)
    case Gc(_) => false
  }

  /** Collecting first changes the answer exactly when the request is disturbed. */
  lemma LateGcIff(t: Table, op: Op, gcAt: nat)
    requires t.WellFormed() && op.at <= gcAt
    ensures Apply(GcStep(t, gcAt), op).1 == Apply(t, op).1 <==> !Disturbed(t, op, gcAt)
  {
    match op
    case Grant(_, _, _, _) => LateGrantIff(t, op, gcAt);
    case Release(_, _, _) => LateReleaseIff(t, op, gcAt);
    case Active(at) => LateListingIff(t, at, gcAt);
    case _ =>
  }

  lemma LateGrantIff(t: Table, op: Op, gcAt: nat)
    requires t.WellFormed() && op.Grant? && op.at <= gcAt
    ensures Apply(GcStep(t, gcAt), op).1 == Apply(t, op).1 <==> !Disturbed(t, op, gcAt)
  {
  }

  lemma LateReleaseIff(t: Table, op: Op, gcAt: nat)
    requires t.WellFormed() && op.Release? && op.at <= gcAt
    ensures Apply(GcStep(t, gcAt), op).1 == Apply(t, op).1 <==> !Disturbed(t, op, gcAt)
  {
  }

  lemma LateListingIff(t: Table, at: nat, gcAt: nat)
    requires t.WellFormed() && at <= gcAt
    ensures InOrder(GcStep(t, gcAt).Live(at)) == InOrder(t.Live(at)) <==> !exists key :: LapsesBetween(t, key, at, gcAt)
  {
    var g := GcStep(t, gcAt);
    assert forall k :: k in g.claims <==> k in t.claims && t.claims[k].LiveAt(gcAt);
    if x :| LapsesBetween(t, x, at, gcAt) {
      assert x in t.Live(at) && x !in g.Live(at);
      if InOrder(g.Live(at)) == InOrder(t.Live(at)) { ListingTells(g.Live(at), t.Live(at)); }
    } else {
      forall k | k in t.Live(at) ensures k in g.Live(at) {
        assert !LapsesBetween(t, k, at, gcAt);
      }
      assert g.Live(at) == t.Live(at);
    }
  }

  /** An undisturbed request leaves the collected and the uncollected table indistinguishable. */
  lemma LateGcSame(t: Table, op: Op, gcAt: nat)
    requires t.WellFormed() && op.at <= gcAt && !Disturbed(t, op, gcAt)
    ensures Same(Apply(GcStep(t, gcAt), op).0, Apply(t, op).0, gcAt)
  {
    var g := GcStep(t, gcAt);
    GcSame(t, t, gcAt);
    LateGcIff(t, op, gcAt);
    match op
    case Grant(key, holder, ttl, at) =>
      if Apply(t, op).1.Granted? {
        var k := Sanitize(key, MAX_KEY).value;
        GrantLive(t, k, Apply(t, op).1.claim, gcAt);
        GrantLive(g, k, Apply(t, op).1.claim, gcAt);
      }
    case Release(key, holder, at) =>
      if MayRelease(t, key, holder, at) {
        ReleaseLive(t, key, gcAt);
        ReleaseLive(g, key, gcAt);
      }
    case Get(_, _) =>
    case Active(_) =>
    case Gc(at) =>
      GcLive(t, at, gcAt);
      GcLive(g, at, gcAt);
  }

  lemma ReleaseLive(t: Table, key: string, now: nat)
    ensures t.(claims := t.claims - {key}).Live(now) == t.Live(now) - {key}
  {
  }

  lemma GcLive(t: Table, at: nat, now: nat)
    requires at <= now
    ensures GcStep(t, at).Live(now) == t.Live(now)
  {
  }

  /** The two clock reads can hand out a lease that starts before its predecessor's expiry. */
  lemma TwoReadsOverlap()
    ensures var t := Table(map["k" := Claim("k", "a", 0, 5_000, 1)], 1);
            var op := Grant("k", "b", 9_000, 4_999);
            && t.WellFormed()
            && Apply(t, op).1 == Refused(Held(t.claims["k"]))
            && Apply(GcStep(t, 5_000), op).1.Granted?
            && Apply(GcStep(t, 5_000), op).1.claim.grantedMs < t.claims["k"].expiresMs
  {
    assert Trim("k") == "k" && Trim("a") == "a" && Trim("b") == "b";
    assert Sanitize("k", MAX_KEY) == Ok("k");
    assert Sanitize("a", MAX_HOLDER) == Ok("a") && Sanitize("b", MAX_HOLDER) == Ok("b");
  }
}
