/** What single requests of the lease registry are answered, from the names as written and in numbers. */
module LeaseAnswers {
  import opened Text
  import opened Claims
  import opened LeaseHistory

  // ------------------------------------------------------------ names as callers write them

  /** `raw` is `name` with whitespace around it. */
  ghost predicate Writes(raw: string, name: string) {
    Trimmed(name) && exists a, b :: AllSpace(a) && AllSpace(b) && raw == a + name + b
  }

  /** A name within its length, and with no control character. */
  ghost predicate Sound(name: string, most: nat) {
    1 <= |name| <= most && !HasControls(name)
  }

  ghost predicate HasControls(name: string) {
    exists i :: 0 <= i < |name| && (name[i] as int < 0x20 || 0x7F <= name[i] as int <= 0x9F)
  }

  lemma {:induction false} TrimStartSkips(a: string, x: string)
    requires AllSpace(a)
    ensures TrimStart(a + x) == TrimStart(x)
  {
    if a == [] {
      assert a + x == x;
    } else {
      assert (a + x)[1..] == a[1..] + x;
      TrimStartSkips(a[1..], x);
    }
  }

  lemma WrittenTrims(raw: string, name: string)
    requires Writes(raw, name)
    ensures Trim(raw) == name
  {
    var a, b :| AllSpace(a) && AllSpace(b) && raw == a + name + b;
    Assoc(a, name, b);
    TrimStartSkips(a, name + b);
    TrimTail(name, b);
  }

  /** Every text writes one name. */
  lemma WritesOne(raw: string) returns (name: string)
    ensures Writes(raw, name)
  {
    var from, to := TrimCuts(raw);
    name := Trim(raw);
    assert raw == raw[..from] + name + raw[to..];
  }

  lemma NameIsTaken(raw: string, name: string, most: nat)
    requires Writes(raw, name)
    ensures Sound(name, most) ==> Sanitize(raw, most) == Ok(name)
    ensures !Sound(name, most) ==>
              Sanitize(raw, most) == Err(if name == "" then Empty else if |name| > most then TooLong else HasControl)
  {
    WrittenTrims(raw, name);
    assert HasControls(name) <==> exists i :: 0 <= i < |name| && IsControl(name[i]);
  }

  // ------------------------------------------------------------ a grant

  /** Another holder has the key at `now`. */
  ghost predicate Taken(t: Table, key: string, holder: string, now: nat) {
    key in t.claims && t.claims[key].expiresMs > now && t.claims[key].holder != holder
  }

  ghost predicate Asks(op: Op, key: string, holder: string) {
    op.Grant? && Writes(op.key, key) && Writes(op.holder, holder)
  }

  /** A request is granted if and only if its names are sound and no other holder has the key. */
  lemma GrantedIff(t: Table, op: Op, key: string, holder: string)
    requires Asks(op, key, holder)
    ensures Apply(t, op).1.Granted? <==> Sound(key, 200) && Sound(holder, 100) && !Taken(t, key, holder, op.at)
  {
    NameIsTaken(op.key, key, MAX_KEY);
    NameIsTaken(op.holder, holder, MAX_HOLDER);
  }

  /** The terms: its own names, from now for the time asked within one second and six hours, with the next fence. */
  lemma GrantTerms(t: Table, op: Op, key: string, holder: string)
    requires Asks(op, key, holder) && Apply(t, op).1.Granted?
    ensures var c := Apply(t, op).1.claim;
      var span := if op.ttl < 1_000 then 1_000 else if op.ttl > 21_600_000 then 21_600_000 else op.ttl;
      && c.key == key && c.holder == holder && c.grantedMs == op.at
      && c.expiresMs == (if op.at + span <= 18_446_744_073_709_551_615 then op.at + span
                         else 18_446_744_073_709_551_615)
      && (t.nextFence < 18_446_744_073_709_551_615 ==> c.fence == t.nextFence + 1)
      && Apply(t, op).0 == Table(t.claims[key := c], c.fence)
  {
    GrantedIff(t, op, key, holder);
    NameIsTaken(op.key, key, MAX_KEY);
    NameIsTaken(op.holder, holder, MAX_HOLDER);
  }

  /** A refusal changes nothing and says why: the key first, then the holder, then the lease in the way. */
  lemma RefusalReason(t: Table, op: Op, key: string, holder: string)
    requires Asks(op, key, holder) && !Apply(t, op).1.Granted?
    ensures Apply(t, op).0 == t && Apply(t, op).1.Refused?
    ensures var e := Apply(t, op).1.error;
      && (key == "" ==> e == Invalid(Key, Empty)) && (|key| > 200 ==> e == Invalid(Key, TooLong))
      && (1 <= |key| <= 200 && HasControls(key) ==> e == Invalid(Key, HasControl))
      && (Sound(key, 200) ==>
            && (holder == "" ==> e == Invalid(Holder, Empty)) && (|holder| > 100 ==> e == Invalid(Holder, TooLong))
            && (1 <= |holder| <= 100 && HasControls(holder) ==> e == Invalid(Holder, HasControl))
            && (Sound(holder, 100) ==> key in t.claims && e == Held(t.claims[key])))
  {
    GrantedIff(t, op, key, holder);
    NameIsTaken(op.key, key, MAX_KEY);
    NameIsTaken(op.holder, holder, MAX_HOLDER);
  }

  // ------------------------------------------------------------ a lease's life

  /** A table in which `c` is stored. */
  ghost predicate Stores(t: Table, c: Claim) {
    c.key in t.claims && t.claims[c.key] == c
  }

  lemma ListedIff(m: map<string, Claim>, c: Claim)
    requires forall k :: k in m ==> m[k].key == k
    ensures c in InOrder(m) <==> c.key in m && m[c.key] == c
  {
    InOrderLists(m);
    if c in InOrder(m) {
      var i :| 0 <= i < |InOrder(m)| && InOrder(m)[i] == c;
    }
  }

  lemma LiveIff(t: Table, c: Claim, now: nat)
    requires Stores(t, c)
    ensures c.key in t.Live(now) && t.Live(now)[c.key] == c <==> now < c.expiresMs
    ensures c.key in t.Live(now) <==> now < c.expiresMs
  {
  }

  /** From its grant to its expiry, and not from then on, a lease is answered, listed and kept by a collection. */
  lemma LeaseRunsOut(t: Table, c: Claim, now: nat)
    requires t.WellFormed() && Stores(t, c)
    ensures Apply(t, Get(c.key, now)) == (t, Found(if now < c.expiresMs then Some(c) else None))
    ensures Apply(t, Active(now)).0 == t && (c in Apply(t, Active(now)).1.leases <==> now < c.expiresMs)
    ensures c.key in Apply(t, Gc(now)).0.claims <==> now < c.expiresMs
    ensures now < c.expiresMs ==> Stores(Apply(t, Gc(now)).0, c)
  {
    LiveIff(t, c, now);
    ListedIff(t.Live(now), c);
  }

  lemma StoredKeyIsSound(t: Table, key: string)
    requires t.WellFormed() && key in t.claims
    ensures Sound(key, 200)
  {
    var name := WritesOne(key);
    WrittenTrims(key, name);
    NameIsTaken(key, name, MAX_KEY);
  }

  lemma FreeKeyIsGranted(t: Table, op: Op, key: string, next: string)
    requires key !in t.claims && Asks(op, key, next) && Sound(key, 200) && Sound(next, 100)
    ensures Apply(t, op).1.Granted?
  {
    GrantedIff(t, op, key, next);
  }

  lemma ReleasedIff(t: Table, c: Claim, holder: string, now: nat)
    requires Stores(t, c)
    ensures Apply(t, LeaseHistory.Release(c.key, holder, now)) ==
              if holder == c.holder && now < c.expiresMs then (t.(claims := t.claims - {c.key}), Released(true))
              else (t, Released(false))
  {
  }

  /** Only its holder gives a lease back, only while it runs, and then anybody may have the key. */
  lemma GivenBackIff(t: Table, c: Claim, holder: string, now: nat, op: Op, next: string)
    requires t.WellFormed() && Stores(t, c) && Asks(op, c.key, next) && Sound(next, 100)
    ensures var (after, reply) := Apply(t, LeaseHistory.Release(c.key, holder, now));
      && reply == Released(holder == c.holder && now < c.expiresMs)
      && (reply == Released(true) ==> after == t.(claims := t.claims - {c.key}) && Apply(after, op).1.Granted?)
      && (reply == Released(false) ==> after == t)
  {
    ReleasedIff(t, c, holder, now);
    StoredKeyIsSound(t, c.key);
    var after := Apply(t, LeaseHistory.Release(c.key, holder, now)).0;
    if holder == c.holder && now < c.expiresMs { FreeKeyIsGranted(after, op, c.key, next); }
  }
}
