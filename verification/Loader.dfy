/** The batch loader (graph/dataloader.go): a cache in front of a source, whose lock is released
    around every fetch. */
module Loader {
  import opened Text

  /** What a call to Load returns: a value, the zero value with no error, or an error. */
  datatype Answer<V> = Value(v: V) | Zero | Error

  /** What the loader decides while it holds the lock the first time. */
  datatype Lookup<V> = Hit(v: V) | KnownMiss | Fetch

  /** The rows of the source among the keys asked for, as the batch query returns them. */
  function Rows<K, V>(source: map<K, V>, keys: seq<K>): map<K, V> {
    map k | k in source && k in keys :: source[k]
  }

  class BatchLoader<K(==), V(==)> {
    var cache: map<K, V>
    var missed: set<K>
    var queries: nat

    constructor ()
      ensures cache == map[] && missed == {} && queries == 0
    {
      cache, missed, queries := map[], {}, 0;
    }

    function Known(): set<K>
      reads this
    {
      cache.Keys + missed
    }

    /** Prime, first critical section: the unknown keys, each once. */
    method PrimeStart(keys: seq<K>) returns (pending: seq<K>)
      ensures NoRepeats(pending)
      ensures forall k :: k in pending <==> k in keys && k !in Known()
    {
      pending := [];
      var seen: set<K> := {};
      for i := 0 to |keys|
        invariant forall k :: k in seen <==> k in keys[..i]
        invariant NoRepeats(pending)
        invariant forall k :: k in pending <==> k in keys[..i] && k !in Known()
      {
        var k := keys[i];
        assert keys[..i + 1] == keys[..i] + [k];
        if k in seen {
          continue;
        }
        seen := seen + {k};
        if k !in cache && k !in missed {
          pending := pending + [k];
        }
      }
      assert keys[..|keys|] == keys;
    }

    /** Prime, second critical section. */
    method PrimeFinish(pending: seq<K>, loaded: map<K, V>)
      modifies this
      ensures queries == old(queries) + 1
      ensures cache == old(cache) + Rows(loaded, pending)
      ensures missed == old(missed) + (set k | k in pending && k !in loaded)
    {
      queries := queries + 1;
      ghost var before, lost := cache, missed;
      for i := 0 to |pending|
        invariant queries == old(queries) + 1
        invariant forall k :: k in cache <==> k in before || (k in pending[..i] && k in loaded)
        invariant forall k :: k in cache ==> cache[k] == if k in pending[..i] && k in loaded then loaded[k] else before[k]
        invariant forall k :: k in missed <==> k in lost || (k in pending[..i] && k !in loaded)
      {
        var k := pending[i];
        assert pending[..i + 1] == pending[..i] + [k];
        if k in loaded {
          cache := cache[k := loaded[k]];
        } else {
          missed := missed + {k};
        }
      }
      assert pending[..|pending|] == pending;
    }

    /** Load, first critical section. */
    method LoadStart(key: K) returns (r: Lookup<V>)
      ensures r.Hit? <==> key in cache
      ensures r.Hit? ==> r.v == cache[key]
      ensures r.KnownMiss? <==> key !in cache && key in missed
    {
      if key in cache {
        return Hit(cache[key]);
      }
      if key in missed {
        return KnownMiss;
      }
      return Fetch;
    }

    /** Load, second critical section. */
    method LoadFinish(key: K, v: V)
      modifies this
      ensures queries == old(queries) + 1 && missed == old(missed)
      ensures cache == old(cache)[key := v]
    {
      queries := queries + 1;
      cache := cache[key := v];
    }

    /** Prime without interference; `fails` says whether the fetch returns an error. */
    method Prime(keys: seq<K>, source: map<K, V>, fails: bool) returns (ok: bool)
      modifies this
      ensures old(Known()) <= Known()
      ensures ok ==> forall k :: k in keys ==> k in Known()
      ensures ok <==> !fails || forall k :: k in keys ==> k in old(Known())
      ensures !ok ==> cache == old(cache) && missed == old(missed) && queries == old(queries)
      ensures ok && (exists k :: k in keys && k !in old(Known())) ==> queries == old(queries) + 1
      ensures forall k :: k in old(cache) ==> k in cache && cache[k] == old(cache)[k]
      ensures (forall k :: k in old(cache) ==> k in source && old(cache)[k] == source[k]) ==>
                forall k :: k in cache ==> k in source && cache[k] == source[k]
      ensures old(queries) <= |old(Known())| ==> queries <= |Known()|
      ensures (forall k :: k in keys ==> k in old(Known())) ==>
                queries == old(queries) && cache == old(cache) && missed == old(missed)
    {
      var pending := PrimeStart(keys);
      if |pending| == 0 {
        return true;
      }
      if fails {
        assert pending[0] in keys && pending[0] !in Known();
        return false;
      }
      ghost var known := Known();
      PrimeFinish(pending, Rows(source, pending));
      assert pending[0] in pending && pending[0] in Known();
      Grew(known, Known(), pending[0]);
      return true;
    }

    /** Load without interference. A key the source does not have makes the fetch fail. */
    method Load(key: K, source: map<K, V>, fails: bool) returns (r: Answer<V>)
      modifies this
      ensures old(Known()) <= Known() && missed == old(missed)
      ensures key in old(Known()) ==> queries == old(queries) && cache == old(cache)
      ensures r == if key in old(cache) then Value(old(cache)[key]) else if key in old(missed) then Zero
                   else if key in source && !fails then Value(source[key]) else Error
      ensures cache == if key !in old(Known()) && key in source && !fails then old(cache)[key := source[key]]
                       else old(cache)
      ensures queries == old(queries) + if key !in old(Known()) && key in source && !fails then 1 else 0
      ensures old(queries) <= |old(Known())| ==> queries <= |Known()|
    {
      var found := LoadStart(key);
      match found
      case Hit(v) => r := Value(v);
      case KnownMiss => r := Zero;
      case Fetch =>
        if key !in source || fails {
          return Error;
        }
        ghost var known := Known();
        LoadFinish(key, source[key]);
        Grew(known, Known(), key);
        r := Value(source[key]);
    }
  }

  lemma Grew<K>(small: set<K>, large: set<K>, extra: K)
    requires small <= large && extra in large && extra !in small
    ensures |large| >= |small| + 1
  {
    SubsetSize(small + {extra}, large);
  }
}

/** Any number of callers of one loader, interleaved at the unlocks, over a fixed source. */
module LoaderRuns {
  import opened Text
  import opened Loader

  /** Calls between their two critical sections. */
  datatype Call<K> = Priming(pending: seq<K>) | Loading(key: K)

  datatype State<K, V> = State(cache: map<K, V>, missed: set<K>, queries: nat,
                               calls: map<nat, Call<K>>, answers: seq<(K, Answer<V>)>)

  datatype Step<K> =
    | BeginPrime(call: nat, keys: seq<K>, pending: seq<K>)
    | BeginLoad(call: nat, key: K)
    | Finish(call: nat)     // the fetch succeeded
    | Abort(call: nat)      // the fetch returned an error

  ghost predicate Enabled<K(!new), V(!new)>(source: map<K, V>, s: State<K, V>, step: Step<K>) {
    match step
    case BeginPrime(c, keys, pending) =>
      && c !in s.calls && pending != [] && NoRepeats(pending)
      && forall k :: k in pending <==> k in keys && k !in s.cache && k !in s.missed
    case BeginLoad(c, _) => c !in s.calls
    // a single fetch succeeds only for a row that exists
    case Finish(c) => c in s.calls && (s.calls[c].Loading? ==> s.calls[c].key in source)
    case Abort(c) => c in s.calls
  }

  ghost function Apply<K(!new), V(!new)>(source: map<K, V>, s: State<K, V>, step: Step<K>): State<K, V>
    requires Enabled(source, s, step)
  {
    match step
    case BeginPrime(c, _, pending) => s.(calls := s.calls[c := Priming(pending)])
    case BeginLoad(c, key) =>
      if key in s.cache then s.(answers := s.answers + [(key, Value(s.cache[key]))])
      else if key in s.missed then s.(answers := s.answers + [(key, Zero)])
      else s.(calls := s.calls[c := Loading(key)])
    case Finish(c) =>
      (match s.calls[c]
       case Priming(pending) =>
         s.(cache := s.cache + Rows(Rows(source, pending), pending),
            missed := s.missed + (set k | k in pending && k !in Rows(source, pending)),
            queries := s.queries + 1, calls := s.calls - {c})
       case Loading(key) =>
         s.(cache := s.cache[key := source[key]], queries := s.queries + 1, calls := s.calls - {c},
            answers := s.answers + [(key, Value(source[key]))]))
    case Abort(c) =>
      (match s.calls[c]
       case Priming(_) => s.(calls := s.calls - {c})
       case Loading(key) => s.(calls := s.calls - {c}, answers := s.answers + [(key, Error)]))
  }

  ghost predicate IsRun<K(!new), V(!new)>(source: map<K, V>, s: State<K, V>, steps: seq<Step<K>>)
    decreases |steps|
  {
    steps == [] || (Enabled(source, s, steps[0]) && IsRun(source, Apply(source, s, steps[0]), steps[1..]))
  }

  ghost function After<K(!new), V(!new)>(source: map<K, V>, s: State<K, V>, steps: seq<Step<K>>): State<K, V>
    requires IsRun(source, s, steps)
    decreases |steps|
  {
    if steps == [] then s else After(source, Apply(source, s, steps[0]), steps[1..])
  }

  function Empty<K, V>(): State<K, V> { State(map[], {}, 0, map[], []) }

  /** The cache agrees with the source, misses are absent, and so was every answer. */
  ghost predicate Coherent<K(!new), V(!new)>(source: map<K, V>, s: State<K, V>) {
    && (forall k :: k in s.cache ==> k in source && s.cache[k] == source[k])
    && (forall k :: k in s.missed ==> k !in source)
    && (forall i :: 0 <= i < |s.answers| ==> Truthful(source, s.answers[i].0, s.answers[i].1))
  }

  ghost predicate Truthful<K(!new), V(!new)>(source: map<K, V>, key: K, a: Answer<V>) {
    && (a.Value? ==> key in source && a.v == source[key])
    && (a.Zero? ==> key !in source)
  }

  lemma InitiallyCoherent<K(!new), V(!new)>(source: map<K, V>)
    ensures Coherent(source, Empty<K, V>())
  {
  }

  lemma StepKeepsCoherent<K(!new), V(!new)>(source: map<K, V>, s: State<K, V>, step: Step<K>)
    requires Coherent(source, s) && Enabled(source, s, step)
    ensures Coherent(source, Apply(source, s, step))
  {
  }

  /** Coherence under interleaving: over a fixed source and any schedule of any number of callers,
      whatever was primed, every cached value is the source's, `missed` holds absent keys only and
      is disjoint from the cache, and a Load of a present key never succeeds with anything but
      the source's value. */
  lemma {:induction false} LoaderCoherent<K(!new), V(!new)>(source: map<K, V>, s: State<K, V>, steps: seq<Step<K>>)
    requires Coherent(source, s) && IsRun(source, s, steps)
    ensures Coherent(source, After(source, s, steps))
    ensures After(source, s, steps).cache.Keys !! After(source, s, steps).missed
    decreases |steps|
  {
    if steps != [] {
      StepKeepsCoherent(source, s, steps[0]);
      LoaderCoherent(source, Apply(source, s, steps[0]), steps[1..]);
    }
  }

  lemma CoherentFromStart<K(!new), V(!new)>(source: map<K, V>, steps: seq<Step<K>>)
    requires IsRun(source, Empty<K, V>(), steps)
    ensures Coherent(source, After(source, Empty<K, V>(), steps))
  {
    InitiallyCoherent<K, V>(source);
    LoaderCoherent(source, Empty<K, V>(), steps);
  }

  ghost predicate Knows<K(!new), V(!new)>(s: State<K, V>, key: K) { key in s.cache || key in s.missed }

  /** Once a key is known it stays known, whatever else is going on, so no later Load of it fetches. */
  lemma {:induction false} KnownStaysKnown<K(!new), V(!new)>(source: map<K, V>, s: State<K, V>, steps: seq<Step<K>>, key: K)
    requires IsRun(source, s, steps) && Knows(s, key)
    ensures Knows(After(source, s, steps), key)
    decreases |steps|
  {
    if steps != [] { KnownStaysKnown(source, Apply(source, s, steps[0]), steps[1..], key); }
  }

  /** A finished Prime makes every key it was asked for known, even if others were priming too. */
  lemma FinishedPrimeKnows<K(!new), V(!new)>(source: map<K, V>, s: State<K, V>, keys: seq<K>, pending: seq<K>,
                                             call: nat, steps: seq<Step<K>>)
    requires Enabled(source, s, BeginPrime(call, keys, pending))
    requires IsRun(source, Apply(source, s, BeginPrime(call, keys, pending)), steps)
    requires var t := After(source, Apply(source, s, BeginPrime(call, keys, pending)), steps);
             call in t.calls && t.calls[call] == Priming(pending)
    ensures var t := After(source, Apply(source, s, BeginPrime(call, keys, pending)), steps);
            forall k :: k in keys ==> Knows(Apply(source, t, Finish(call)), k)
  {
    var s' := Apply(source, s, BeginPrime(call, keys, pending));
    forall k | k in keys && Knows(s, k) ensures Knows(After(source, s', steps), k) {
      KnownStaysKnown(source, s', steps, k);
    }
  }

  // ---- round trips ------------------------------------------------------------------------

  ghost function KnownKeys<K(!new), V(!new)>(s: State<K, V>): set<K> { s.cache.Keys + s.missed }

  /** At no point of the run are more than n calls under way. */
  ghost predicate AtMost<K(!new), V(!new)>(source: map<K, V>, s: State<K, V>, steps: seq<Step<K>>, n: nat)
    requires IsRun(source, s, steps)
    decreases |steps|
  {
    |s.calls| <= n && (steps != [] ==> AtMost(source, Apply(source, s, steps[0]), steps[1..], n))
  }

  /** Every trip taught the loader a key, and a call under way is after an unknown one. */
  ghost predicate Frugal<K(!new), V(!new)>(s: State<K, V>) {
    && s.queries <= |KnownKeys(s)|
    && (forall c, d :: c in s.calls && d in s.calls ==> c == d)
    && (forall c :: c in s.calls && s.calls[c].Priming? ==>
          s.calls[c].pending != [] && s.calls[c].pending[0] !in KnownKeys(s))
    && (forall c :: c in s.calls && s.calls[c].Loading? ==> s.calls[c].key !in KnownKeys(s))
  }

  lemma FinishKeepsFrugal<K(!new), V(!new)>(source: map<K, V>, s: State<K, V>, c: nat, learned: K)
    requires Frugal(s) && Enabled(source, s, Finish(c))
    requires learned == if s.calls[c].Priming? then s.calls[c].pending[0] else s.calls[c].key
    ensures Frugal(Apply(source, s, Finish(c)))
  {
    var t := Apply(source, s, Finish(c));
    assert KnownKeys(s) <= KnownKeys(t);
    if s.calls[c].Priming? { assert learned in s.calls[c].pending; }
    assert learned in KnownKeys(t) && learned !in KnownKeys(s);
    Grew(KnownKeys(s), KnownKeys(t), learned);
    assert t.calls == map[];
  }

  lemma OnlyCall<K, V>(calls: map<K, V>, c: K, call: V)
    requires c !in calls && |calls[c := call]| <= 1
    ensures calls == map[]
  {
    assert |calls[c := call]| == |calls| + 1;
  }

  lemma BeginPrimeKeepsFrugal<K(!new), V(!new)>(source: map<K, V>, s: State<K, V>, step: Step<K>)
    requires Frugal(s) && step.BeginPrime? && Enabled(source, s, step) && |Apply(source, s, step).calls| <= 1
    ensures Frugal(Apply(source, s, step))
  {
    OnlyCall(s.calls, step.call, Priming(step.pending));
    assert step.pending[0] in step.pending;
  }

  lemma BeginLoadKeepsFrugal<K(!new), V(!new)>(source: map<K, V>, s: State<K, V>, step: Step<K>)
    requires Frugal(s) && step.BeginLoad? && Enabled(source, s, step) && |Apply(source, s, step).calls| <= 1
    ensures Frugal(Apply(source, s, step))
  {
    if !Knows(s, step.key) { OnlyCall(s.calls, step.call, Loading(step.key)); }
  }

  lemma StepKeepsFrugal<K(!new), V(!new)>(source: map<K, V>, s: State<K, V>, step: Step<K>)
    requires Frugal(s) && Enabled(source, s, step) && |Apply(source, s, step).calls| <= 1
    ensures Frugal(Apply(source, s, step))
  {
    match step
    case BeginPrime(_, _, _) => BeginPrimeKeepsFrugal(source, s, step);
    case BeginLoad(_, _) => BeginLoadKeepsFrugal(source, s, step);
    case Abort(c) => assert Apply(source, s, step).calls == map[];
    case Finish(c) =>
      FinishKeepsFrugal(source, s, c, if s.calls[c].Priming? then s.calls[c].pending[0] else s.calls[c].key);
  }

  lemma InitiallyFrugal<K(!new), V(!new)>()
    ensures Frugal(Empty<K, V>())
  {
  }

  /** Trip count: in every run with at most one call under way the counter never exceeds the
      number of distinct keys the loader knows. */
  lemma {:induction false} SequentialTripsBounded<K(!new), V(!new)>(source: map<K, V>, s: State<K, V>, steps: seq<Step<K>>)
    requires Frugal(s) && IsRun(source, s, steps) && AtMost(source, s, steps, 1)
    ensures Frugal(After(source, s, steps))
    decreases |steps|
  {
    if steps != [] {
      StepKeepsFrugal(source, s, steps[0]);
      SequentialTripsBounded(source, Apply(source, s, steps[0]), steps[1..]);
    }
  }

  /** Loads of known keys make no trip: while every load in the schedule asks for a known key and
      nothing is under way, the counter and the cache stand still. */
  lemma {:induction false} LoadsOfKnownKeysAreFree<K(!new), V(!new)>(source: map<K, V>, s: State<K, V>, steps: seq<Step<K>>)
    requires IsRun(source, s, steps) && s.calls == map[]
    requires forall i :: 0 <= i < |steps| ==> steps[i].BeginLoad? && Knows(s, steps[i].key)
    ensures var t := After(source, s, steps);
            t.queries == s.queries && t.cache == s.cache && t.missed == s.missed && t.calls == map[]
    decreases |steps|
  {
    if steps != [] {
      var t := Apply(source, s, steps[0]);
      assert t.calls == map[];
      forall i | 0 <= i < |steps[1..]| ensures steps[1..][i].BeginLoad? && Knows(t, steps[1..][i].key) {
        assert steps[1..][i] == steps[i + 1];
      }
      LoadsOfKnownKeysAreFree(source, t, steps[1..]);
    }
  }

  /** The sequential trip bound does not survive concurrency: two callers that both miss the same
      key both fetch it. */
  lemma ConcurrentLoadsFetchTwice<K(!new), V(!new)>(key: K, v: V) returns (s: State<K, V>)
    ensures var source := map[key := v];
            var s0 := Empty<K, V>();
            && Enabled(source, s0, BeginLoad(0, key))
            && var s1 := Apply(source, s0, BeginLoad(0, key));
               && Enabled(source, s1, BeginLoad(1, key))
               && var s2 := Apply(source, s1, BeginLoad(1, key));
                  && Enabled(source, s2, Finish(0))
                  && var s3 := Apply(source, s2, Finish(0));
                     Enabled(source, s3, Finish(1)) && s == Apply(source, s3, Finish(1))
    ensures s.queries == 2 && s.cache.Keys + s.missed == {key}
  {
    var source := map[key := v];
    var s1 := Apply(source, Empty<K, V>(), BeginLoad(0, key));
    var s2 := Apply(source, s1, BeginLoad(1, key));
    var s3 := Apply(source, s2, Finish(0));
    s := Apply(source, s3, Finish(1));
  }

  // ---- exactly when the trip bound holds -------------------------------------------------------

  /** In every run from the start with at most n calls under way, each trip taught the loader a key. */
  ghost predicate TripsBounded<K(!new), V(!new)>(source: map<K, V>, n: nat) {
    forall steps: seq<Step<K>> ::
      IsRun(source, Empty<K, V>(), steps) && AtMost(source, Empty<K, V>(), steps, n) ==>
        After(source, Empty<K, V>(), steps).queries <= |KnownKeys(After(source, Empty<K, V>(), steps))|
  }

  lemma Prepend<K(!new), V(!new)>(source: map<K, V>, s: State<K, V>, step: Step<K>, rest: seq<Step<K>>, end: State<K, V>, n: nat)
    returns (steps: seq<Step<K>>)
    requires Enabled(source, s, step) && |s.calls| <= n
    requires var t := Apply(source, s, step);
             IsRun(source, t, rest) && AtMost(source, t, rest, n) && After(source, t, rest) == end
    ensures IsRun(source, s, steps) && AtMost(source, s, steps, n) && After(source, s, steps) == end
  {
    steps := [step] + rest;
    assert steps[1..] == rest;
  }

  /** Two callers start to prime the same unknown key ... */
  lemma PrimingTwice<K(!new), V(!new)>(source: map<K, V>, key: K) returns (s1: State<K, V>, s2: State<K, V>)
    ensures var s0, step := Empty<K, V>(), BeginPrime(0, [key], [key]); Enabled(source, s0, step) && s1 == Apply(source, s0, step)
    ensures var step := BeginPrime(1, [key], [key]); Enabled(source, s1, step) && s2 == Apply(source, s1, step)
    ensures |s1.calls| == 1 && s2 == State(map[], {}, 0, map[0 := Priming([key]), 1 := Priming([key])], [])
  {
    s1 := Apply(source, Empty<K, V>(), BeginPrime(0, [key], [key]));
    s2 := Apply(source, s1, BeginPrime(1, [key], [key]));
  }

  /** A Prime of one key finishes, whether that key was learned meanwhile or not. */
  lemma FinishKnows<K(!new), V(!new)>(source: map<K, V>, s: State<K, V>, c: nat, key: K)
    requires c in s.calls && s.calls[c] == Priming([key]) && KnownKeys(s) <= {key}
    ensures var t := Apply(source, s, Finish(c));
            KnownKeys(t) == {key} && t.queries == s.queries + 1 && t.calls == s.calls - {c}
  {
    assert key in [key];
  }

  /** ... and both finish. */
  lemma PrimedTwice<K(!new), V(!new)>(source: map<K, V>, key: K, s2: State<K, V>)
    returns (s3: State<K, V>, s4: State<K, V>)
    requires s2 == State(map[], {}, 0, map[0 := Priming([key]), 1 := Priming([key])], [])
    ensures s3 == Apply(source, s2, Finish(0)) && Enabled(source, s3, Finish(1)) && s4 == Apply(source, s3, Finish(1))
    ensures |s3.calls| == 1 && |s4.calls| == 0 && s4.queries == 2 && KnownKeys(s4) == {key}
  {
    s3 := Apply(source, s2, Finish(0));
    FinishKnows(source, s2, 0, key);
    assert s3.calls == map[1 := Priming([key])];
    s4 := Apply(source, s3, Finish(1));
    FinishKnows(source, s3, 1, key);
    assert s4.calls == map[];
  }

  lemma PrimeTwice<K(!new), V(!new)>(source: map<K, V>, key: K) returns (steps: seq<Step<K>>)
    ensures IsRun(source, Empty<K, V>(), steps) && AtMost(source, Empty<K, V>(), steps, 2)
    ensures var t := After(source, Empty<K, V>(), steps); t.queries == 2 && KnownKeys(t) == {key}
  {
    var s1, s2 := PrimingTwice<K, V>(source, key);
    var s3, s4 := PrimedTwice(source, key, s2);
    assert |s2.calls| == |map[0 := Priming([key])]| + 1;
    steps := Prepend(source, s3, Finish(1), [], s4, 2);
    steps := Prepend(source, s2, Finish(0), steps, s4, 2);
    steps := Prepend(source, s1, BeginPrime(1, [key], [key]), steps, s4, 2);
    steps := Prepend(source, Empty<K, V>(), BeginPrime(0, [key], [key]), steps, s4, 2);
  }

  lemma {:induction false} AtMostMore<K(!new), V(!new)>(source: map<K, V>, s: State<K, V>, steps: seq<Step<K>>, n: nat, m: nat)
    requires IsRun(source, s, steps) && AtMost(source, s, steps, n) && n <= m
    ensures AtMost(source, s, steps, m)
    decreases |steps|
  {
    if steps != [] { AtMostMore(source, Apply(source, s, steps[0]), steps[1..], n, m); }
  }

  /** The trips stay within the known keys in every run exactly when at most one call is ever
      under way, whatever the source holds. */
  lemma TripsBoundedExactly<K(!new), V(!new)>(source: map<K, V>, key: K, n: nat)
    ensures TripsBounded(source, n) <==> n <= 1
  {
    var s := Empty<K, V>();
    if n <= 1 {
      forall steps: seq<Step<K>> | IsRun(source, s, steps) && AtMost(source, s, steps, n)
        ensures After(source, s, steps).queries <= |KnownKeys(After(source, s, steps))|
      {
        InitiallyFrugal<K, V>();
        AtMostMore(source, s, steps, n, 1);
        SequentialTripsBounded(source, s, steps);
      }
    } else {
      var steps := PrimeTwice(source, key);
      AtMostMore(source, s, steps, 2, n);
      assert |{key}| == 1;
    }
  }

  // ---- the loader's critical sections are these steps --------------------------------------------

  datatype Request<K> = Prime(keys: seq<K>) | Load(key: K) | Fetched | Failed

  ghost predicate Holds<K(!new), V(!new)>(l: BatchLoader<K, V>, s: State<K, V>)
    reads l
  {
    l.cache == s.cache && l.missed == s.missed && l.queries == s.queries
  }

  /** The step a request takes; a Prime of known keys returns at once. */
  ghost predicate StepOf<K(!new)>(r: Request<K>, call: nat, step: Step<K>) {
    match r
    case Prime(keys) => step.BeginPrime? && step.call == call && step.keys == keys
    case Load(key) => step == BeginLoad(call, key)
    case Fetched => step == Finish(call)
    case Failed => step == Abort(call)
  }

  /** The critical sections of BatchLoader, run one at a time in any order, do what Apply says. */
  method Execute<K(==, !new), V(==, !new)>(l: BatchLoader<K, V>, source: map<K, V>, s: State<K, V>, call: nat, r: Request<K>)
    returns (t: State<K, V>, ghost step: Option<Step<K>>)
    requires Holds(l, s)
    requires r.Prime? || r.Load? <==> call !in s.calls
    requires r.Fetched? && s.calls[call].Loading? ==> s.calls[call].key in source
    modifies l
    ensures Holds(l, t)
    ensures step.Some? ==> StepOf(r, call, step.value) && Enabled(source, s, step.value) && t == Apply(source, s, step.value)
    ensures step.None? ==> t == s && r.Prime? && forall k :: k in r.keys ==> Knows(s, k)
  {
    t, step := s, None;
    match r
    case Prime(keys) =>
      var pending := l.PrimeStart(keys);
      if |pending| > 0 {
        step := Some(BeginPrime(call, keys, pending));
        t := s.(calls := s.calls[call := Priming(pending)]);
      } else {
        assert forall k :: k in keys ==> k !in pending && Knows(s, k);
      }
    case Load(key) =>
      var found := l.LoadStart(key);
      step := Some(BeginLoad(call, key));
      match found {
        case Hit(v) => t := s.(answers := s.answers + [(key, Value(v))]);
        case KnownMiss => t := s.(answers := s.answers + [(key, Zero)]);
        case Fetch => t := s.(calls := s.calls[call := Loading(key)]);
      }
    case Fetched =>
      step := Some(Finish(call));
      match s.calls[call] {
        case Priming(pending) =>
          l.PrimeFinish(pending, Rows(source, pending));
          t := s.(cache := l.cache, missed := l.missed, queries := l.queries, calls := s.calls - {call});
        case Loading(key) =>
          l.LoadFinish(key, source[key]);
          t := s.(cache := l.cache, queries := l.queries, calls := s.calls - {call},
                  answers := s.answers + [(key, Value(source[key]))]);
      }
    case Failed =>
      step := Some(Abort(call));
      match s.calls[call] {
        case Priming(_) => t := s.(calls := s.calls - {call});
        case Loading(key) => t := s.(calls := s.calls - {call}, answers := s.answers + [(key, Error)]);
      }
  }
}
