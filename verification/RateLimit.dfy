/** The fixed-window rate limiter (internal/middleware/ratelimit.go). */
module RateLimit {
  import opened Text

  /** A counter in the shared store; it vanishes once its expiry has passed. */
  datatype Counter = Counter(count: nat, expiry: Option<nat>)

  type Store = map<string, Counter>

  function Window(now: nat): nat { now / 60 }

  function KeyOf(identity: string, window: nat): string { "ratelimit:" + (identity + (":" + Numeral(window))) }

  predicate Alive(store: Store, key: string, now: nat) {
    key in store && (store[key].expiry.Some? ==> now < store[key].expiry.value)
  }

  function CountOf(store: Store, key: string, now: nat): nat { if Alive(store, key, now) then store[key].count else 0 }

  /** INCR, followed by EXPIRE 90 on a new counter. */
  function Hit(store: Store, key: string, now: nat): Store {
    var count := CountOf(store, key, now) + 1;
    var expiry := if Alive(store, key, now) then store[key].expiry else None;
    store[key := Counter(count, if count == 1 then Some(now + 90) else expiry)]
  }

  /** The client's address as the proxy headers give it: the left-most forwarded entry, which the
      client may have written itself (clientIP in internal/middleware/observability.go). */
  function ClientIP(forwardedFor: string, realIP: string, remoteAddr: string): string {
    if forwardedFor != "" then
      var comma := Index(forwardedFor, ",");
      Trim(if comma > 0 then forwardedFor[..comma] else forwardedFor)
    else if realIP != "" then Trim(realIP)
    else remoteAddr
  }

  /** The identity a request is counted under. */
  function Identity(tenant: Option<string>, clientIP: string): string {
    if tenant.Some? then "tenant:" + tenant.value else clientIP
  }

  class Limiter {
    const requestsPerMinute: int
    var store: Store

    constructor (requestsPerMinute: int)
      ensures this.requestsPerMinute == requestsPerMinute && store == map[]
    {
      this.requestsPerMinute := requestsPerMinute;
      store := map[];
    }

    /** One request. A store that cannot be reached lets the request through. */
    method Admit(identity: string, now: nat, reachable: bool) returns (admitted: bool, remaining: int)
      modifies this
      ensures !reachable ==> admitted && store == old(store)
      ensures reachable ==>
                && store == Hit(old(store), KeyOf(identity, Window(now)), now)
                && var count := CountOf(old(store), KeyOf(identity, Window(now)), now) + 1;
                   (admitted <==> count <= requestsPerMinute)
                   && remaining == (if count <= requestsPerMinute then requestsPerMinute - count else 0)
      ensures reachable ==>
                var key := "ratelimit:" + (identity + (":" + Numeral(now / 60)));
                && (forall k :: k in old(store) && k != key ==> k in store && store[k] == old(store)[k])
                && key in store
                && (key !in old(store) ==> store[key] == Counter(1, Some(now + 90)))
    {
      var key := KeyOf(identity, Window(now));
      if !reachable {
        return true, 0;
      }
      var count := 1;
      if Alive(store, key, now) {
        count := store[key].count + 1;
        store := store[key := store[key].(count := count)];
      } else {
        store := store[key := Counter(count, None)];
      }
      if count == 1 {
        store := store[key := store[key].(expiry := Some(now + 90))];
      }
      remaining := requestsPerMinute - count;
      if remaining < 0 {
        remaining := 0;
      }
      if count > requestsPerMinute {
        return false, remaining;
      }
      return true, remaining;
    }
  }

  // ---- one key per identity and window -----------------------------------------------------

  /** The text behind the last colon is the window, so the key determines both parts even when
      the identity holds colons itself. */
  lemma KeyInjective(i: string, w: nat, j: string, v: nat)
    requires KeyOf(i, w) == KeyOf(j, v)
    ensures i == j && w == v
  {
    var a, b := i + (":" + Numeral(w)), j + (":" + Numeral(v));
    assert a == KeyOf(i, w)[|"ratelimit:"|..] && b == KeyOf(j, v)[|"ratelimit:"|..];
    if |i| < |j| {
      ColonAt(j, Numeral(v), i, Numeral(w));
    } else if |j| < |i| {
      ColonAt(i, Numeral(w), j, Numeral(v));
    } else {
      assert i == a[..|i|] && j == b[..|j|];
      assert Numeral(w) == a[|i| + 1..] && Numeral(v) == b[|j| + 1..];
      NumeralReadsBack(w);
      NumeralReadsBack(v);
    }
  }

  lemma ColonAt(long: string, x: string, short: string, y: string)
    requires AllDigits(y) && |short| < |long|
    ensures long + (":" + x) != short + (":" + y)
  {
    var a, b := long + (":" + x), short + (":" + y);
    assert a[|long|] == ':';
    if |a| == |b| { assert b[|long|] == y[|long| - |short| - 1]; }
  }

  /** Who shares a tenant's counter: the tenant itself, in the same window, and an unauthenticated
      client whose address reads like the tenant's identity. Nobody else does. */
  lemma TenantsApart(tenant: string, ip: string, w: nat, other: Option<string>, otherIP: string, v: nat)
    ensures KeyOf(Identity(Some(tenant), ip), w) == KeyOf(Identity(other, otherIP), v)
            <==> w == v && if other.Some? then other.value == tenant else otherIP == "tenant:" + tenant
  {
    var mine, theirs := Identity(Some(tenant), ip), Identity(other, otherIP);
    assert mine[|"tenant:"|..] == tenant;
    if KeyOf(mine, w) == KeyOf(theirs, v) {
      KeyInjective(mine, w, theirs, v);
      if other.Some? { assert theirs[|"tenant:"|..] == other.value; }
    }
  }

  /** Such an address can be sent: a request without credentials that forwards `tenant:` and a
      tenant's id is counted under that tenant. */
  lemma ForwardedIdentityShares(tenant: string, ip: string, realIP: string, remoteAddr: string, w: nat)
    requires tenant != "" && ',' !in tenant && !IsSpace(tenant[|tenant| - 1])
    ensures ClientIP("tenant:" + tenant, realIP, remoteAddr) == "tenant:" + tenant
    ensures KeyOf(Identity(None, ClientIP("tenant:" + tenant, realIP, remoteAddr)), w) == KeyOf(Identity(Some(tenant), ip), w)
  {
    var forwarded := "tenant:" + tenant;
    NeverOccurs(forwarded, ",");
    assert forwarded[|forwarded| - 1] == tenant[|tenant| - 1];
  }

  /** Which address counts: the left-most entry of the forwarded chain, unless the chain starts with
      a comma; without a chain the proxy's header, and without that the connection's. */
  lemma ClientIPExactly(first: string, rest: string, realIP: string, remoteAddr: string)
    requires ',' !in first
    ensures first != "" ==> ClientIP(first, realIP, remoteAddr) == Trim(first)
    ensures first != "" ==> ClientIP(first + ("," + rest), realIP, remoteAddr) == Trim(first)
    ensures ClientIP("," + rest, realIP, remoteAddr) == Trim("," + rest)
    ensures realIP != "" ==> ClientIP("", realIP, remoteAddr) == Trim(realIP)
    ensures ClientIP("", "", remoteAddr) == remoteAddr
  {
    var chain := first + ("," + rest);
    NeverOccurs(first, ",");
    FirstComma(first, rest);
    if first != "" { assert chain[..|first|] == first && chain != ""; }
    FirstComma("", rest);
    assert "" + ("," + rest) == "," + rest;
  }

  lemma FirstComma(first: string, rest: string)
    requires ',' !in first
    ensures Index(first + ("," + rest), ",") == |first|
  {
    var chain := first + ("," + rest);
    assert chain[|first|..|first| + 1] == ",";
    assert OccursAt(chain, ",", |first|);
    IndexIsFirst(chain, ",");
    var at := Index(chain, ",");
    assert chain[at..at + 1][0] == chain[at];
  }

  // ---- traces --------------------------------------------------------------------------------

  datatype Arrival = Arrival(identity: string, at: nat)

  /** A monotone clock. */
  predicate InOrder(trace: seq<Arrival>) { forall i, j :: 0 <= i < j < |trace| ==> trace[i].at <= trace[j].at }

  /** The store after a trace. */
  function After(trace: seq<Arrival>): Store {
    if trace == [] then map[]
    else
      var last := trace[|trace| - 1];
      Hit(After(trace[..|trace| - 1]), KeyOf(last.identity, Window(last.at)), last.at)
  }

  /** Whether the last arrival of a trace is admitted. */
  predicate Admitted(trace: seq<Arrival>, limit: nat)
    requires trace != []
  {
    var last := trace[|trace| - 1];
    CountOf(After(trace[..|trace| - 1]), KeyOf(last.identity, Window(last.at)), last.at) + 1 <= limit
  }

  function Arrivals(trace: seq<Arrival>, identity: string, window: nat): nat {
    if trace == [] then 0
    else
      var last := trace[|trace| - 1];
      Arrivals(trace[..|trace| - 1], identity, window)
      + if last.identity == identity && Window(last.at) == window then 1 else 0
  }

  /** Admissions of an identity at times in [from, to). */
  function Admissions(trace: seq<Arrival>, limit: nat, identity: string, from: nat, to: nat): nat {
    if trace == [] then 0
    else
      var last := trace[|trace| - 1];
      Admissions(trace[..|trace| - 1], limit, identity, from, to)
      + if last.identity == identity && from <= last.at < to && Admitted(trace, limit) then 1 else 0
  }

  /** From time `now` on, the counter of every current or later window holds its arrivals: the
      expiry of 90 seconds outlives the window. */
  ghost predicate Counts(trace: seq<Arrival>, now: nat) {
    forall i, w :: w >= Window(now) ==> Tallied(After(trace), KeyOf(i, w), w, Arrivals(trace, i, w))
  }

  predicate Tallied(store: Store, key: string, window: nat, arrivals: nat) {
    if arrivals == 0 then key !in store
    else
      && key in store && store[key].count == arrivals
      && store[key].expiry.Some? && store[key].expiry.value >= 60 * (window + 1)
  }

  lemma {:induction false} CountersCount(trace: seq<Arrival>, now: nat)
    requires InOrder(trace) && (trace != [] ==> trace[|trace| - 1].at <= now)
    ensures Counts(trace, now)
    decreases |trace|
  {
    if trace != [] {
      var rest, last := trace[..|trace| - 1], trace[|trace| - 1];
      CountersCount(rest, last.at);
      forall i, w | w >= Window(now)
        ensures Tallied(After(trace), KeyOf(i, w), w, Arrivals(trace, i, w))
      {
        LastHit(rest, last, i, w);
      }
    }
  }

  lemma LastHit(rest: seq<Arrival>, last: Arrival, i: string, w: nat)
    requires Counts(rest, last.at) && w >= Window(last.at)
    ensures var store := Hit(After(rest), KeyOf(last.identity, Window(last.at)), last.at);
            Tallied(store, KeyOf(i, w), w,
                    Arrivals(rest, i, w) + if last.identity == i && Window(last.at) == w then 1 else 0)
  {
    assert Tallied(After(rest), KeyOf(i, w), w, Arrivals(rest, i, w));
    var key := KeyOf(last.identity, Window(last.at));
    assert Tallied(After(rest), key, Window(last.at), Arrivals(rest, last.identity, Window(last.at)));
    if key == KeyOf(i, w) { KeyInjective(last.identity, Window(last.at), i, w); }
  }

  /** The n-th arrival of an identity in a window is admitted exactly when n is within the limit. */
  lemma AdmittedExactly(trace: seq<Arrival>, limit: nat)
    requires trace != [] && InOrder(trace)
    ensures var last := trace[|trace| - 1];
            Admitted(trace, limit) <==> Arrivals(trace, last.identity, Window(last.at)) <= limit
  {
    var rest, last := trace[..|trace| - 1], trace[|trace| - 1];
    CountersCount(rest, last.at);
    var w := Window(last.at);
    assert Tallied(After(rest), KeyOf(last.identity, w), w, Arrivals(rest, last.identity, w));
  }

  /** Each identity gets exactly min(limit, arrivals) admissions per window. */
  lemma {:induction false} WindowAdmissions(trace: seq<Arrival>, limit: nat, identity: string, window: nat)
    requires InOrder(trace)
    ensures Admissions(trace, limit, identity, 60 * window, 60 * window + 60)
            == if Arrivals(trace, identity, window) <= limit then Arrivals(trace, identity, window) else limit
    decreases |trace|
  {
    if trace != [] {
      WindowAdmissions(trace[..|trace| - 1], limit, identity, window);
      AdmittedExactly(trace, limit);
    }
  }

  lemma {:induction false} AdmissionsSplit(trace: seq<Arrival>, limit: nat, identity: string, a: nat, b: nat, c: nat)
    requires a <= b <= c
    ensures Admissions(trace, limit, identity, a, c)
            == Admissions(trace, limit, identity, a, b) + Admissions(trace, limit, identity, b, c)
    decreases |trace|
  {
    if trace != [] { AdmissionsSplit(trace[..|trace| - 1], limit, identity, a, b, c); }
  }

  /** At most twice the limit in any 60 consecutive seconds, wherever they start. */
  lemma AnyMinuteBound(trace: seq<Arrival>, limit: nat, identity: string, from: nat)
    requires InOrder(trace)
    ensures Admissions(trace, limit, identity, from, from + 60) <= 2 * limit
  {
    var w := Window(from);
    WindowAdmissions(trace, limit, identity, w);
    WindowAdmissions(trace, limit, identity, w + 1);
    AdmissionsSplit(trace, limit, identity, 60 * w, from, 60 * w + 60);
    AdmissionsSplit(trace, limit, identity, 60 * (w + 1), from + 60, 60 * (w + 1) + 60);
    AdmissionsSplit(trace, limit, identity, from, 60 * w + 60, from + 60);
  }
}
