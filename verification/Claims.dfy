/** The lease registry: leases over named keys, each grant carrying a fence token. */
module Claims {
  import opened Text

  const MIN_TTL_MS: nat := 1_000
  const MAX_TTL_MS: nat := 6 * 3_600_000
  const MAX_KEY: nat := 200
  const MAX_HOLDER: nat := 100
  const U64_MAX: nat := 0xFFFF_FFFF_FFFF_FFFF

  datatype Claim = Claim(key: string, holder: string, grantedMs: nat, expiresMs: nat, fence: nat) {
    predicate LiveAt(now: nat) {
      expiresMs > now
    }

    /** Milliseconds left, saturating at zero. */
    function RemainingMs(now: nat): nat {
      if expiresMs > now then expiresMs - now else 0
    }
  }

  datatype Result<+T, +E> = Ok(value: T) | Err(error: E)

  datatype Field = Key | Holder

  datatype Fault = Empty | TooLong | HasControl

  datatype GrantError = Held(current: Claim) | Invalid(field: Field, fault: Fault)

  /** Trimmed, non-empty, bounded, and free of control characters. */
  function Sanitize(s: string, max: nat): (r: Result<string, Fault>)
  {
    var t := Trim(s);
    if t == [] then Err(Empty)
    else if |t| > max then Err(TooLong)
    else if exists i :: 0 <= i < |t| && IsControl(t[i]) then Err(HasControl)
    else Ok(t)
  }

  /** A cleaned name is already clean: " k" and "k" are one key, and stay one key. */
  lemma SanitizeIdempotent(s: string, max: nat)
    requires Sanitize(s, max).Ok?
    ensures Sanitize(Sanitize(s, max).value, max) == Sanitize(s, max)
  {
    var from, to := TrimCuts(s);
    TrimFixed(Trim(s));
  }

  function Clamp(x: nat, lo: nat, hi: nat): nat
    requires lo <= hi
  {
    if x < lo then lo else if x > hi then hi else x
  }

  function SaturatingAdd(a: nat, b: nat): nat {
    if a + b > U64_MAX then U64_MAX else a + b
  }

  /** `next_fence += 1` on a 64-bit counter, as a release build computes it. */
  function NextFence(n: nat): nat {
    if n >= U64_MAX then 0 else n + 1
  }

  /** The value of a registry: what is stored, and what is persisted. */
  datatype Table = Table(claims: map<string, Claim>, nextFence: nat) {

    /** The leases in force at `now`. */
    function Live(now: nat): map<string, Claim> {
      map k | k in claims && claims[k].LiveAt(now) :: claims[k]
    }

    ghost predicate WellFormed() {
      && nextFence <= U64_MAX
      && forall k :: k in claims ==>
           && claims[k].key == k
           && Sanitize(k, MAX_KEY) == Ok(k)
           && Sanitize(claims[k].holder, MAX_HOLDER) == Ok(claims[k].holder)
    }
  }

  const EMPTY := Table(map[], 0)

  // ------------------------------------------------------------ key order

  /** Code point order on strings, which is the byte order of their UTF-8. */
  predicate LexLe(a: string, b: string) {
    || a == []
    || (b != [] && (a[0] < b[0] || (a[0] == b[0] && LexLe(a[1..], b[1..]))))
  }

  lemma {:induction false} LexTotal(a: string, b: string)
    ensures LexLe(a, b) || LexLe(b, a)
    ensures LexLe(a, b) && LexLe(b, a) ==> a == b
  {
    if a != [] && b != [] {
      LexTotal(a[1..], b[1..]);
      assert a == [a[0]] + a[1..] && b == [b[0]] + b[1..];
    }
  }

  lemma {:induction false} LexTransitive(a: string, b: string, c: string)
    requires LexLe(a, b) && LexLe(b, c)
    ensures LexLe(a, c)
  {
    if a != [] && a[0] == b[0] && b[0] == c[0] {
      LexTransitive(a[1..], b[1..], c[1..]);
    }
  }

  ghost predicate IsLeast(m: string, ks: set<string>) {
    m in ks && forall k :: k in ks ==> LexLe(m, k)
  }

  method LeastKey(ks: set<string>) returns (m: string)
    requires ks != {}
    ensures IsLeast(m, ks)
  {
    m :| m in ks;
    var rest := ks - {m};
    LexTotal(m, m);
    while rest != {}
      invariant m in ks && rest <= ks
      invariant forall k :: k in ks - rest ==> LexLe(m, k)
    {
      var k :| k in rest;
      LexTotal(k, m);
      if !LexLe(m, k) {
        forall j | j in ks - rest ensures LexLe(k, j) { LexTransitive(k, m, j); }
        LexTotal(k, k);
        m := k;
      }
      rest := rest - {k};
    }
  }

  lemma {:induction false} LeastExists(ks: set<string>) returns (m: string)
    requires ks != {}
    ensures IsLeast(m, ks)
    decreases |ks|
  {
    var k :| k in ks;
    LexTotal(k, k);
    if ks == {k} {
      m := k;
    } else {
      var rest := ks - {k};
      assert ks == rest + {k};
      var r := LeastExists(rest);
      LexTotal(r, k);
      if LexLe(r, k) {
        m := r;
      } else {
        forall j | j in ks ensures LexLe(k, j) { if j != k { LexTransitive(k, r, j); } }
        m := k;
      }
    }
  }

  /** The leases of a map, in key order. */
  ghost function InOrder(m: map<string, Claim>): seq<Claim>
    decreases |m|
  {
    if m == map[] then [] else
      assert exists k :: IsLeast(k, m.Keys) by { var k := LeastExists(m.Keys); }
      var k :| IsLeast(k, m.Keys);
      [m[k]] + InOrder(m - {k})
  }

  lemma InOrderNext(m: map<string, Claim>, k: string)
    requires IsLeast(k, m.Keys)
    ensures InOrder(m) == [m[k]] + InOrder(m - {k})
  {
    forall j | IsLeast(j, m.Keys) ensures j == k { LexTotal(j, k); }
  }

  lemma TakeLeast(m: map<string, Claim>, k: string, out: seq<Claim>)
    requires IsLeast(k, m.Keys)
    ensures out + InOrder(m) == (out + [m[k]]) + InOrder(m - {k}) && |m - {k}| < |m|
  {
    InOrderNext(m, k);
    Assoc(out, [m[k]], InOrder(m - {k}));
    assert m.Keys == (m - {k}).Keys + {k};
  }

  /** The leases of a map by repeatedly taking the least key, as iterating the source's ordered map does. */
  method Sorted(m: map<string, Claim>) returns (out: seq<Claim>)
    ensures out == InOrder(m)
  {
    var rest := m;
    out := [];
    while rest != map[]
      invariant out + InOrder(rest) == InOrder(m)
      decreases |rest|
    {
      var k := LeastKey(rest.Keys);
      TakeLeast(rest, k, out);
      out := out + [rest[k]];
      rest := rest - {k};
    }
  }

  /** `s` holds exactly the leases of `m`. */
  ghost predicate Lists(s: seq<Claim>, m: map<string, Claim>) {
    && (forall i :: 0 <= i < |s| ==> s[i].key in m && m[s[i].key] == s[i])
    && (forall k :: k in m ==> m[k] in s)
  }

  /** Strictly increasing keys. */
  ghost predicate Ascending(s: seq<Claim>) {
    forall i, j :: 0 <= i < j < |s| ==> LexLe(s[i].key, s[j].key) && s[i].key != s[j].key
  }

  /** The listing holds each lease of the map once, in strictly increasing key order, and nothing else. */
  lemma {:induction false} InOrderLists(m: map<string, Claim>)
    requires forall k :: k in m ==> m[k].key == k
    ensures Lists(InOrder(m), m) && Ascending(InOrder(m))
    decreases |m|
  {
    if m != map[] {
      var k := LeastExists(m.Keys);
      InOrderNext(m, k);
      var rest := InOrder(m - {k});
      assert m.Keys == (m - {k}).Keys + {k};
      InOrderLists(m - {k});
      ListsCons(m, k, rest);
    }
  }

  lemma ListsCons(m: map<string, Claim>, k: string, rest: seq<Claim>)
    requires forall j :: j in m ==> m[j].key == j
    requires IsLeast(k, m.Keys) && Lists(rest, m - {k}) && Ascending(rest)
    ensures Lists([m[k]] + rest, m) && Ascending([m[k]] + rest)
  {
    var s := [m[k]] + rest;
    forall i | 0 <= i < |s| ensures s[i].key in m && m[s[i].key] == s[i] {
      if i > 0 { assert s[i] == rest[i - 1]; }
    }
    forall j | j in m ensures m[j] in s {
      if j != k { assert m[j] == (m - {k})[j]; assert m[j] in rest; } else { assert s[0] == m[k]; }
    }
    forall i, j | 0 <= i < j < |s| ensures LexLe(s[i].key, s[j].key) && s[i].key != s[j].key {
      assert s[j] == rest[j - 1] && s[j].key in m - {k};
      if i > 0 { assert s[i] == rest[i - 1]; }
    }
  }

  // ------------------------------------------------------------ operations

  function GrantStep(t: Table, rawKey: string, rawHolder: string, ttl: nat, now: nat):
    (Table, Result<Claim, GrantError>)
  {
    match Sanitize(rawKey, MAX_KEY)
    case Err(e) => (t, Err(Invalid(Key, e)))
    case Ok(key) =>
      match Sanitize(rawHolder, MAX_HOLDER)
      case Err(e) => (t, Err(Invalid(Holder, e)))
      case Ok(holder) =>
        if key in t.claims && t.claims[key].LiveAt(now) && t.claims[key].holder != holder then
          (t, Err(Held(t.claims[key])))
        else
          var fence := NextFence(t.nextFence);
          var c := Claim(key, holder, now, SaturatingAdd(now, Clamp(ttl, MIN_TTL_MS, MAX_TTL_MS)), fence);
          (Table(t.claims[key := c], fence), Ok(c))
  }

  predicate MayRelease(t: Table, key: string, holder: string, now: nat) {
    key in t.claims && t.claims[key].holder == holder && t.claims[key].LiveAt(now)
  }

  function ReleaseStep(t: Table, key: string, holder: string, now: nat): (Table, bool) {
    if MayRelease(t, key, holder, now) then (t.(claims := t.claims - {key}), true) else (t, false)
  }

  function GetStep(t: Table, key: string, now: nat): Option<Claim> {
    if key in t.claims && t.claims[key].LiveAt(now) then Some(t.claims[key]) else None
  }

  function GcStep(t: Table, now: nat): Table {
    t.(claims := t.Live(now))
  }

  /** The registry as the daemon holds it: a map it updates and a fence counter it advances. */
  class Registry {
    var claims: map<string, Claim>
    var nextFence: nat

    function Contents(): Table
      reads this
    {
      Table(claims, nextFence)
    }

    constructor (t: Table)
      ensures Contents() == t
    {
      claims, nextFence := t.claims, t.nextFence;
    }

    method Grant(rawKey: string, rawHolder: string, ttl: nat, now: nat) returns (r: Result<Claim, GrantError>)
      modifies this
      ensures (Contents(), r) == GrantStep(old(Contents()), rawKey, rawHolder, ttl, now)
    {
      var k := Sanitize(rawKey, MAX_KEY);
      if k.Err? { return Err(Invalid(Key, k.error)); }
      var h := Sanitize(rawHolder, MAX_HOLDER);
      if h.Err? { return Err(Invalid(Holder, h.error)); }
      var key, holder := k.value, h.value;
      if key in claims && claims[key].LiveAt(now) && claims[key].holder != holder {
        return Err(Held(claims[key]));
      }
      nextFence := NextFence(nextFence);
      var c := Claim(key, holder, now, SaturatingAdd(now, Clamp(ttl, MIN_TTL_MS, MAX_TTL_MS)), nextFence);
      claims := claims[key := c];
      r := Ok(c);
    }

    method Release(key: string, holder: string, now: nat) returns (ok: bool)
      modifies this
      ensures (Contents(), ok) == ReleaseStep(old(Contents()), key, holder, now)
    {
      if key !in claims { return false; }
      if claims[key].holder != holder || !claims[key].LiveAt(now) { return false; }
      claims := claims - {key};
      ok := true;
    }

    method Get(key: string, now: nat) returns (r: Option<Claim>)
      ensures r == GetStep(Contents(), key, now)
    {
      r := if key in claims && claims[key].LiveAt(now) then Some(claims[key]) else None;
    }

    method Active(now: nat) returns (out: seq<Claim>)
      ensures out == InOrder(Contents().Live(now))
    {
      out := Sorted(Contents().Live(now));
    }

    method Gc(now: nat)
      modifies this
      ensures Contents() == GcStep(old(Contents()), now)
    {
      claims := map k | k in claims && claims[k].LiveAt(now) :: claims[k];
    }
  }
}
