/** Runs of the export queue: any number of workers claim, report, crash and recover jobs. A
    claim is two steps, lock then update, so claims of different workers overlap. */
module ExportRuns {
  import opened Text
  import opened Encoding
  import opened ExportRepository

  /** A job handed to a worker by the claim with this ticket. Each claim has its own ticket, so
      nothing in the representation forces a job to have one lease only. */
  datatype Lease = Lease(ticket: nat, job: string, worker: nat, at: nat)

  /** A claim that has locked its rows and not committed yet. */
  datatype Claim = Claim(worker: nat, ids: set<string>, at: nat)

  datatype State = State(now: nat, rows: Table, claims: map<nat, Claim>, held: set<Lease>, nextTicket: nat)

  /** `punctual` is the lease hypothesis: a worker that holds a job, or is claiming one, reports
      or is dead before the visibility timeout has passed. */
  datatype Config = Config(timeout: nat, maxAttempts: nat, punctual: bool)

  datatype Step =
    | Tick(d: nat)
    | Submit(id: string, tenant: string)
    | BeginClaim(worker: nat, limit: nat, ids: set<string>)
    | CommitClaim(ticket: nat)
    | Complete(lease: Lease, objectKey: string, rowCount: int, sizeBytes: int)
    | Fail(lease: Lease, reason: Bytes)
    | Retry(lease: Lease, reason: Bytes)
    | Crash(worker: nat)
    | Release

  function Locked(s: State): set<string> {
    set t, id | t in s.claims && id in s.claims[t].ids :: id
  }

  ghost predicate Enabled(c: Config, s: State, step: Step) {
    match step
    case Tick(d) =>
      c.punctual ==>
        && (forall l :: l in s.held ==> s.now + d <= l.at + c.timeout)
        && (forall t :: t in s.claims ==> s.now + d <= s.claims[t].at + c.timeout)
    case Submit(id, _) => id !in s.rows
    case BeginClaim(_, limit, ids) => IsSelection(s.rows, Locked(s), limit, ids)
    case CommitClaim(ticket) => ticket in s.claims
    // a report updates by id and waits for a lock on the row; an upload always has a key
    case Complete(l, key, _, _) => l in s.held && l.job in s.rows && l.job !in Locked(s) && key != ""
    case Fail(l, _) => l in s.held && l.job in s.rows && l.job !in Locked(s)
    // the worker requeues only while attempts remain
    case Retry(l, _) => l in s.held && l.job in s.rows && l.job !in Locked(s) && s.rows[l.job].attempts < c.maxAttempts
    case Crash(_) => true
    case Release => true
  }

  function Leases(ticket: nat, claim: Claim): set<Lease> {
    set id | id in claim.ids :: Lease(ticket, id, claim.worker, claim.at)
  }

  ghost function Apply(c: Config, s: State, step: Step): State
    requires Enabled(c, s, step)
  {
    match step
    case Tick(d) => s.(now := s.now + d)
    case Submit(id, tenant) => s.(rows := s.rows[id := Enqueued(tenant, s.now)])
    case BeginClaim(worker, _, ids) =>
      s.(claims := s.claims[s.nextTicket := Claim(worker, ids, s.now)], nextTicket := s.nextTicket + 1)
    case CommitClaim(t) =>
      // now() is the start of the transaction
      s.(rows := ClaimAll(s.rows, s.claims[t].ids, s.claims[t].at),
         claims := s.claims - {t}, held := s.held + Leases(t, s.claims[t]))
    case Complete(l, key, rowCount, sizeBytes) =>
      s.(rows := s.rows[l.job := Finished(s.rows[l.job], key, rowCount, sizeBytes, s.now)], held := s.held - {l})
    case Fail(l, reason) =>
      s.(rows := s.rows[l.job := GivenUp(s.rows[l.job], reason, s.now)], held := s.held - {l})
    case Retry(l, reason) =>
      s.(rows := s.rows[l.job := Requeued(s.rows[l.job], reason)], held := s.held - {l})
    case Crash(worker) =>
      s.(held := (set l | l in s.held && l.worker != worker),
         claims := (map t | t in s.claims && s.claims[t].worker != worker :: s.claims[t]))
    case Release =>
      s.(rows := ReleaseAll(s.rows, s.now - c.timeout, c.maxAttempts, s.now))
  }

  /** Some sequence of enabled steps. */
  ghost predicate IsRun(c: Config, s: State, steps: seq<Step>)
    decreases |steps|
  {
    steps == [] || (Enabled(c, s, steps[0]) && IsRun(c, Apply(c, s, steps[0]), steps[1..]))
  }

  ghost function After(c: Config, s: State, steps: seq<Step>): State
    requires IsRun(c, s, steps)
    decreases |steps|
  {
    if steps == [] then s else After(c, Apply(c, s, steps[0]), steps[1..])
  }

  const EMPTY: State := State(0, map[], map[], {}, 0)

  // ---- the invariant -------------------------------------------------------------------

  /** A job record tells its own story. */
  predicate Consistent(j: Job, c: Config, now: nat) {
    && (j.status == Queued ==> j.startedAt.None? && j.attempts < c.maxAttempts)
    && (j.status == Processing ==> j.startedAt.Some? && j.startedAt.value <= now && j.attempts >= 1)
    && (j.status.Terminal() <==> j.finishedAt.Some?)
    && (j.status == Completed <==> j.objectKey != "")
    && j.attempts <= c.maxAttempts
  }

  ghost predicate RowsOk(c: Config, s: State) {
    forall id :: id in s.rows ==> Consistent(s.rows[id], c, s.now)
  }

  /** Unfinished claims hold different queued rows. */
  ghost predicate ClaimsOk(c: Config, s: State) {
    && (forall t :: t in s.claims ==>
          t < s.nextTicket && s.claims[t].at <= s.now <= s.claims[t].at + c.timeout)
    && (forall t, id :: t in s.claims && id in s.claims[t].ids ==> id in s.rows && s.rows[id].status == Queued)
    && (forall t, u, id :: t in s.claims && u in s.claims && id in s.claims[t].ids && id in s.claims[u].ids ==> t == u)
  }

  /** Every lease is current: its job is processing since the lease was taken. */
  ghost predicate Current(c: Config, s: State, l: Lease) {
    && l.job in s.rows && s.rows[l.job].status == Processing && s.rows[l.job].startedAt == Some(l.at)
    && s.now <= l.at + c.timeout && l.ticket < s.nextTicket && l.ticket !in s.claims
  }

  ghost predicate LeasesOk(c: Config, s: State) {
    && (forall l :: l in s.held ==> Current(c, s, l))
    && (forall l, k :: l in s.held && k in s.held && l.job == k.job ==> l == k)
  }

  ghost predicate Inv(c: Config, s: State) {
    RowsOk(c, s) && ClaimsOk(c, s) && LeasesOk(c, s)
  }

  lemma InvInitially(c: Config)
    requires c.maxAttempts >= 1
    ensures Inv(c, EMPTY)
  {
  }

  lemma BeginKeepsInv(c: Config, s: State, step: Step)
    requires c.punctual && c.maxAttempts >= 1 && Inv(c, s) && step.BeginClaim? && Enabled(c, s, step)
    ensures Inv(c, Apply(c, s, step))
  {
    forall id | id in step.ids
      ensures id in s.rows && s.rows[id].status == Queued && id !in Locked(s)
    {
      assert id in Claimable(s.rows, Locked(s));
    }
    forall t, id | t in s.claims && id in s.claims[t].ids ensures id !in step.ids {
      assert id in Locked(s);
    }
    forall l | l in s.held ensures Current(c, Apply(c, s, step), l) {
      assert Current(c, s, l);
    }
  }

  lemma CommitKeepsInv(c: Config, s: State, step: Step)
    requires c.punctual && c.maxAttempts >= 1 && Inv(c, s) && step.CommitClaim? && Enabled(c, s, step)
    ensures Inv(c, Apply(c, s, step))
  {
    var s', claim := Apply(c, s, step), s.claims[step.ticket];
    forall l | l in s.held ensures l.job !in claim.ids && Current(c, s', l) {
      assert Current(c, s, l);
    }
  }

  /** A report, by the only holder of its job, on a row nobody has locked. */
  lemma ReportKeepsInv(c: Config, s: State, step: Step)
    requires c.punctual && c.maxAttempts >= 1 && Inv(c, s) && Enabled(c, s, step)
    requires step.Complete? || step.Fail? || step.Retry?
    ensures Inv(c, Apply(c, s, step))
  {
    var s' := Apply(c, s, step);
    assert Current(c, s, step.lease);
    forall l | l in s'.held ensures Current(c, s', l) {
      assert Current(c, s, l) && l.job != step.lease.job;
    }
    forall t, id | t in s'.claims && id in s'.claims[t].ids
      ensures id in s'.rows && s'.rows[id].status == Queued
    {
      assert id in Locked(s);
    }
  }

  lemma ReleaseKeepsInv(c: Config, s: State)
    requires c.punctual && c.maxAttempts >= 1 && Inv(c, s)
    ensures Inv(c, Apply(c, s, Release))
  {
    var s' := Apply(c, s, Release);
    forall l | l in s'.held ensures Current(c, s', l) {
      assert Current(c, s, l) && !Stale(s.rows[l.job], s.now - c.timeout);
    }
  }

  lemma StepKeepsInv(c: Config, s: State, step: Step)
    requires c.punctual && c.maxAttempts >= 1 && Inv(c, s) && Enabled(c, s, step)
    ensures Inv(c, Apply(c, s, step))
  {
    match step
    case BeginClaim(_, _, _) => BeginKeepsInv(c, s, step);
    case CommitClaim(_) => CommitKeepsInv(c, s, step);
    case Complete(_, _, _, _) => ReportKeepsInv(c, s, step);
    case Fail(_, _) => ReportKeepsInv(c, s, step);
    case Retry(_, _) => ReportKeepsInv(c, s, step);
    case Release => ReleaseKeepsInv(c, s);
    case Tick(_) =>
      forall l | l in s.held ensures Current(c, Apply(c, s, step), l) { assert Current(c, s, l); }
    case Submit(_, _) =>
      forall l | l in s.held ensures Current(c, Apply(c, s, step), l) { assert Current(c, s, l); }
    case Crash(_) =>
      forall l | l in Apply(c, s, step).held ensures Current(c, Apply(c, s, step), l) { assert Current(c, s, l); }
  }

  lemma {:induction false} RunKeepsInv(c: Config, s: State, steps: seq<Step>)
    requires c.punctual && c.maxAttempts >= 1 && Inv(c, s) && IsRun(c, s, steps)
    ensures Inv(c, After(c, s, steps))
    decreases |steps|
  {
    if steps != [] {
      StepKeepsInv(c, s, steps[0]);
      RunKeepsInv(c, Apply(c, s, steps[0]), steps[1..]);
    }
  }

  // ---- what holds in every reachable state -----------------------------------------------

  /** Exclusive ownership over every run: no job has two live holders, unfinished claims lock
      different jobs, and no locked job is held. */
  lemma ExclusiveOwnership(c: Config, steps: seq<Step>)
    requires c.punctual && c.maxAttempts >= 1 && IsRun(c, EMPTY, steps)
    ensures var s := After(c, EMPTY, steps);
            && (forall l, k :: l in s.held && k in s.held && l.job == k.job ==> l == k)
            && (forall t, u :: t in s.claims && u in s.claims && t != u ==> s.claims[t].ids !! s.claims[u].ids)
            && (forall l :: l in s.held ==> l.job !in Locked(s))
  {
    InvInitially(c);
    RunKeepsInv(c, EMPTY, steps);
    var s := After(c, EMPTY, steps);
    forall l | l in s.held ensures l.job !in Locked(s) {
      assert Current(c, s, l);
    }
  }

  /** The record of every reachable job: processing only with a start time, terminal exactly
      with a finish time, completed exactly with an object key. */
  lemma RecordsConsistent(c: Config, steps: seq<Step>, id: string)
    requires c.punctual && c.maxAttempts >= 1 && IsRun(c, EMPTY, steps) && id in After(c, EMPTY, steps).rows
    ensures var j := After(c, EMPTY, steps).rows[id];
            && (j.status == Processing ==> j.startedAt.Some?)
            && (j.status.Terminal() <==> j.finishedAt.Some?)
            && (j.status == Completed <==> j.objectKey != "")
            && j.attempts <= c.maxAttempts
  {
    InvInitially(c);
    RunKeepsInv(c, EMPTY, steps);
  }

  // ---- work per job ----------------------------------------------------------------------

  /** The steps that act on a job's row after it was submitted. */
  ghost predicate ActsOn(c: Config, s: State, step: Step, id: string)
    requires Enabled(c, s, step)
  {
    match step
    case CommitClaim(t) => id in s.claims[t].ids
    case Complete(l, _, _, _) => l.job == id
    case Fail(l, _) => l.job == id
    case Retry(l, _) => l.job == id
    case Release => id in s.rows && Stale(s.rows[id], s.now - c.timeout)
    case _ => false
  }

  /** Remaining work of a job. */
  function Measure(c: Config, j: Job): int {
    if j.status.Terminal() then 0
    else 2 * (c.maxAttempts - j.attempts) + if j.status == Processing then 1 else 0
  }

  /** Every claim, report and release strictly uses up work; nothing else touches the row; and a
      terminal row is never acted on. */
  lemma StepUsesWork(c: Config, s: State, step: Step, id: string)
    requires c.punctual && c.maxAttempts >= 1 && Inv(c, s) && Enabled(c, s, step) && id in s.rows
    ensures id in Apply(c, s, step).rows
    ensures var j, j' := s.rows[id], Apply(c, s, step).rows[id];
            if ActsOn(c, s, step, id) then !j.status.Terminal() && 0 <= Measure(c, j') < Measure(c, j) else j' == j
  {
    StepKeepsInv(c, s, step);
    if step.Complete? || step.Fail? || step.Retry? { assert Current(c, s, step.lease); }
  }

  /** Completed and failed jobs never change again. */
  lemma {:induction false} TerminalForever(c: Config, s: State, steps: seq<Step>, id: string)
    requires c.punctual && c.maxAttempts >= 1 && Inv(c, s) && IsRun(c, s, steps)
    requires id in s.rows && s.rows[id].status.Terminal()
    ensures id in After(c, s, steps).rows && After(c, s, steps).rows[id] == s.rows[id]
    decreases |steps|
  {
    if steps != [] {
      StepUsesWork(c, s, steps[0], id);
      StepKeepsInv(c, s, steps[0]);
      TerminalForever(c, Apply(c, s, steps[0]), steps[1..], id);
    }
  }

  ghost function CountActs(c: Config, s: State, steps: seq<Step>, id: string): nat
    requires IsRun(c, s, steps)
    decreases |steps|
  {
    if steps == [] then 0
    else (if ActsOn(c, s, steps[0], id) then 1 else 0) + CountActs(c, Apply(c, s, steps[0]), steps[1..], id)
  }

  ghost function CountClaims(c: Config, s: State, steps: seq<Step>, id: string): nat
    requires IsRun(c, s, steps)
    decreases |steps|
  {
    if steps == [] then 0
    else (if steps[0].CommitClaim? && id in s.claims[steps[0].ticket].ids then 1 else 0)
         + CountClaims(c, Apply(c, s, steps[0]), steps[1..], id)
  }

  function AttemptsOf(s: State, id: string): nat { if id in s.rows then s.rows[id].attempts else 0 }

  function WorkOf(c: Config, s: State, id: string): int {
    if id in s.rows then Measure(c, s.rows[id]) else 2 * c.maxAttempts
  }

  lemma UnknownJobsIdle(c: Config, s: State, step: Step, id: string)
    requires c.punctual && c.maxAttempts >= 1 && Inv(c, s) && Enabled(c, s, step) && id !in s.rows
    ensures !ActsOn(c, s, step, id)
    ensures id in Apply(c, s, step).rows ==> Apply(c, s, step).rows[id] == Enqueued(Apply(c, s, step).rows[id].tenant, s.now)
  {
  }

  lemma {:induction false} WorkBounded(c: Config, s: State, steps: seq<Step>, id: string)
    requires c.punctual && c.maxAttempts >= 1 && Inv(c, s) && IsRun(c, s, steps)
    ensures CountActs(c, s, steps, id) + WorkOf(c, After(c, s, steps), id) <= WorkOf(c, s, id)
    ensures AttemptsOf(After(c, s, steps), id) == AttemptsOf(s, id) + CountClaims(c, s, steps, id)
    decreases |steps|
  {
    if steps != [] {
      var s' := Apply(c, s, steps[0]);
      StepKeepsInv(c, s, steps[0]);
      WorkBounded(c, s', steps[1..], id);
      if id in s.rows { StepUsesWork(c, s, steps[0], id); } else { UnknownJobsIdle(c, s, steps[0], id); }
    }
  }

  /** Bounded work: over any run, at most 2 * maxAttempts claims, reports and releases act on a
      job, and its attempts are exactly the claims that took it, at most maxAttempts. */
  lemma BoundedWork(c: Config, steps: seq<Step>, id: string)
    requires c.punctual && c.maxAttempts >= 1 && IsRun(c, EMPTY, steps)
    ensures CountActs(c, EMPTY, steps, id) <= 2 * c.maxAttempts
    ensures AttemptsOf(After(c, EMPTY, steps), id) == CountClaims(c, EMPTY, steps, id) <= c.maxAttempts
  {
    InvInitially(c);
    RunKeepsInv(c, EMPTY, steps);
    WorkBounded(c, EMPTY, steps, id);
  }

  // ---- without the lease hypothesis --------------------------------------------------------

  /** A claim of the only job, begun and committed at once. */
  lemma ClaimTheOnlyJob(c: Config, s: State, job: string, worker: nat) returns (begun: State, done: State)
    requires s.claims == map[] && s.rows.Keys == {job} && s.rows[job].status == Queued
    ensures Enabled(c, s, BeginClaim(worker, 1, {job})) && begun == Apply(c, s, BeginClaim(worker, 1, {job}))
    ensures Enabled(c, begun, CommitClaim(s.nextTicket)) && done == Apply(c, begun, CommitClaim(s.nextTicket))
    ensures done == State(s.now, map[job := Claimed(s.rows[job], s.now)], map[],
                          s.held + {Lease(s.nextTicket, job, worker, s.now)}, s.nextTicket + 1)
  {
    assert Locked(s) == {};
    assert Claimable(s.rows, Locked(s)) == {job};
    begun := Apply(c, s, BeginClaim(worker, 1, {job}));
    done := Apply(c, begun, CommitClaim(s.nextTicket));
    assert done.claims == map[];
    assert Leases(s.nextTicket, begun.claims[s.nextTicket]) == {Lease(s.nextTicket, job, worker, s.now)};
    assert done.rows == map[job := Claimed(s.rows[job], s.now)];
  }

  /** The holder of the only job lets the timeout pass, and the job is released. */
  lemma OutliveTheTimeout(c: Config, s: State, job: string) returns (aged: State, released: State)
    requires !c.punctual && s.claims == map[] && s.rows.Keys == {job}
    requires s.rows[job].status == Processing && s.rows[job].startedAt == Some(s.now)
    ensures Enabled(c, s, Tick(c.timeout + 1)) && aged == Apply(c, s, Tick(c.timeout + 1))
    ensures Enabled(c, aged, Release) && released == Apply(c, aged, Release)
    ensures released.rows.Keys == {job}
    ensures released.rows[job].status == if s.rows[job].attempts >= c.maxAttempts then Failed else Queued
    ensures released.rows[job].attempts == s.rows[job].attempts
    ensures released == s.(now := s.now + c.timeout + 1, rows := released.rows)
  {
    aged := Apply(c, s, Tick(c.timeout + 1));
    released := Apply(c, aged, Release);
  }

  /** One more step in front of a run. */
  lemma Prepend(c: Config, s: State, step: Step, rest: seq<Step>, end: State) returns (steps: seq<Step>)
    requires Enabled(c, s, step) && IsRun(c, Apply(c, s, step), rest) && After(c, Apply(c, s, step), rest) == end
    ensures IsRun(c, s, steps) && After(c, s, steps) == end
  {
    steps := [step] + rest;
    assert steps[1..] == rest;
  }

  /** With attempts to spare, a worker that outlives the timeout shares its job with the next
      claimer. */
  lemma TwoHolders(c: Config, job: string) returns (steps: seq<Step>, s: State, late: Lease, next: Lease)
    requires !c.punctual && c.maxAttempts >= 2
    ensures IsRun(c, EMPTY, steps) && After(c, EMPTY, steps) == s
    ensures s.claims == map[] && job in s.rows
    ensures late in s.held && next in s.held && late != next && late.job == next.job == job
  {
    var s1 := Apply(c, EMPTY, Submit(job, "t"));
    var s2, s3 := ClaimTheOnlyJob(c, s1, job, 1);
    var s4, s5 := OutliveTheTimeout(c, s3, job);
    var s6, s7 := ClaimTheOnlyJob(c, s5, job, 2);
    s, late, next := s7, Lease(0, job, 1, 0), Lease(1, job, 2, s5.now);
    steps := Prepend(c, s6, CommitClaim(1), [], s7);
    steps := Prepend(c, s5, BeginClaim(2, 1, {job}), steps, s7);
    steps := Prepend(c, s4, Release, steps, s7);
    steps := Prepend(c, s3, Tick(c.timeout + 1), steps, s7);
    steps := Prepend(c, s2, CommitClaim(0), steps, s7);
    steps := Prepend(c, s1, BeginClaim(1, 1, {job}), steps, s7);
    steps := Prepend(c, EMPTY, Submit(job, "t"), steps, s7);
  }

  /** The holder of a job whose last attempt this was outlives the timeout: its row is failed
      while the lease is still held. */
  lemma FailedWhileHeld(c: Config, job: string) returns (steps: seq<Step>, s: State, late: Lease)
    requires !c.punctual && c.maxAttempts == 1
    ensures IsRun(c, EMPTY, steps) && After(c, EMPTY, steps) == s
    ensures s.claims == map[] && job in s.rows && s.rows[job].status == Failed
    ensures late in s.held && late.job == job
  {
    var s1 := Apply(c, EMPTY, Submit(job, "t"));
    var s2, s3 := ClaimTheOnlyJob(c, s1, job, 1);
    var s4, s5 := OutliveTheTimeout(c, s3, job);
    s, late := s5, Lease(0, job, 1, 0);
    steps := Prepend(c, s4, Release, [], s5);
    steps := Prepend(c, s3, Tick(c.timeout + 1), steps, s5);
    steps := Prepend(c, s2, CommitClaim(0), steps, s5);
    steps := Prepend(c, s1, BeginClaim(1, 1, {job}), steps, s5);
    steps := Prepend(c, EMPTY, Submit(job, "t"), steps, s5);
  }

  /** A late report takes a finished job out of its terminal state, whatever the retry budget. */
  lemma LateReport(c: Config, job: string) returns (steps: seq<Step>, step: Step)
    requires !c.punctual && c.maxAttempts >= 1
    ensures IsRun(c, EMPTY, steps) && !Stands(c, After(c, EMPTY, steps), step)
  {
    if c.maxAttempts == 1 {
      var s, late;
      steps, s, late := FailedWhileHeld(c, job);
      step := Complete(late, "key", 1, 1);
      assert Locked(s) == {};
      assert Apply(c, s, step).rows[job].status == Completed;
    } else {
      var before, s, late, next := TwoHolders(c, job);
      var done := Complete(next, "key", 1, 1);
      assert Locked(s) == {};
      steps := Append(c, EMPTY, before, done);
      step := Fail(late, "late");
      assert Locked(Apply(c, s, done)) == {};
      assert Apply(c, s, done).rows[job].status == Completed;
      assert Apply(c, Apply(c, s, done), step).rows[job].status == Failed;
    }
  }

  /** One more step behind a run. */
  lemma {:induction false} Append(c: Config, s: State, steps: seq<Step>, last: Step) returns (longer: seq<Step>)
    requires IsRun(c, s, steps) && Enabled(c, After(c, s, steps), last)
    ensures IsRun(c, s, longer) && After(c, s, longer) == Apply(c, After(c, s, steps), last)
    decreases |steps|
  {
    if steps == [] {
      longer := Prepend(c, s, last, [], Apply(c, s, last));
    } else {
      var rest := Append(c, Apply(c, s, steps[0]), steps[1..], last);
      longer := Prepend(c, s, steps[0], rest, Apply(c, After(c, s, steps), last));
    }
  }

  // ---- exactly when the promises hold --------------------------------------------------------

  ghost predicate OneHolder(s: State) {
    forall l, k :: l in s.held && k in s.held && l.job == k.job ==> l == k
  }

  /** No run ever gives a job two live holders. */
  ghost predicate Exclusive(c: Config) {
    forall steps: seq<Step> :: IsRun(c, EMPTY, steps) ==> OneHolder(After(c, EMPTY, steps))
  }

  /** A step that is possible leaves every terminal row alone. */
  ghost predicate Stands(c: Config, s: State, step: Step) {
    Enabled(c, s, step) ==>
      forall id :: id in s.rows && s.rows[id].status.Terminal() ==>
        id in Apply(c, s, step).rows && Apply(c, s, step).rows[id] == s.rows[id]
  }

  /** No step of any run ever changes a terminal row. */
  ghost predicate Final(c: Config) {
    forall steps: seq<Step>, step: Step :: IsRun(c, EMPTY, steps) ==> Stands(c, After(c, EMPTY, steps), step)
  }

  /** With a single attempt, a job that was ever claimed is never queued again. */
  ghost predicate ClaimedOnce(s: State) {
    && (forall id :: id in s.rows ==>
          && (s.rows[id].status == Queued <==> s.rows[id].attempts == 0)
          && (s.rows[id].status == Processing ==> s.rows[id].startedAt.Some?))
    && (forall l :: l in s.held ==> l.job in s.rows && s.rows[l.job].attempts >= 1)
    && (forall t, id :: t in s.claims && id in s.claims[t].ids ==> id in s.rows && s.rows[id].attempts == 0)
    && (forall t, u, id :: t in s.claims && u in s.claims && id in s.claims[t].ids && id in s.claims[u].ids ==> t == u)
    && (forall t :: t in s.claims ==> t < s.nextTicket)
    && OneHolder(s)
  }

  lemma BeginKeepsClaimedOnce(c: Config, s: State, step: Step)
    requires c.maxAttempts == 1 && ClaimedOnce(s) && step.BeginClaim? && Enabled(c, s, step)
    ensures ClaimedOnce(Apply(c, s, step))
  {
    forall id | id in step.ids ensures id in s.rows && s.rows[id].attempts == 0 && id !in Locked(s) {
      assert id in Claimable(s.rows, Locked(s));
    }
  }

  lemma CommitKeepsClaimedOnce(c: Config, s: State, step: Step)
    requires c.maxAttempts == 1 && ClaimedOnce(s) && step.CommitClaim? && Enabled(c, s, step)
    ensures ClaimedOnce(Apply(c, s, step))
  {
    assert forall l :: l in s.held ==> l.job !in s.claims[step.ticket].ids;
  }

  lemma ReportKeepsClaimedOnce(c: Config, s: State, step: Step)
    requires c.maxAttempts == 1 && ClaimedOnce(s) && Enabled(c, s, step)
    requires step.Complete? || step.Fail?
    ensures ClaimedOnce(Apply(c, s, step))
  {
    forall t, id | t in s.claims && id in s.claims[t].ids ensures id != step.lease.job { assert id in Locked(s); }
  }

  lemma ReleaseKeepsClaimedOnce(c: Config, s: State)
    requires c.maxAttempts == 1 && ClaimedOnce(s)
    ensures ClaimedOnce(Apply(c, s, Release))
  {
  }

  lemma CrashKeepsClaimedOnce(c: Config, s: State, worker: nat)
    requires c.maxAttempts == 1 && ClaimedOnce(s)
    ensures ClaimedOnce(Apply(c, s, Crash(worker)))
  {
  }

  lemma StepKeepsClaimedOnce(c: Config, s: State, step: Step)
    requires c.maxAttempts == 1 && ClaimedOnce(s) && Enabled(c, s, step)
    ensures ClaimedOnce(Apply(c, s, step))
  {
    match step
    case BeginClaim(_, _, _) => BeginKeepsClaimedOnce(c, s, step);
    case CommitClaim(_) => CommitKeepsClaimedOnce(c, s, step);
    case Complete(_, _, _, _) => ReportKeepsClaimedOnce(c, s, step);
    case Fail(_, _) => ReportKeepsClaimedOnce(c, s, step);
    case Release => ReleaseKeepsClaimedOnce(c, s);
    case Crash(worker) => CrashKeepsClaimedOnce(c, s, worker);
    case _ =>
  }

  lemma {:induction false} RunKeepsClaimedOnce(c: Config, s: State, steps: seq<Step>)
    requires c.maxAttempts == 1 && ClaimedOnce(s) && IsRun(c, s, steps)
    ensures ClaimedOnce(After(c, s, steps))
    decreases |steps|
  {
    if steps != [] {
      StepKeepsClaimedOnce(c, s, steps[0]);
      RunKeepsClaimedOnce(c, Apply(c, s, steps[0]), steps[1..]);
    }
  }

  /** No job ever has two live holders exactly when workers are punctual or a job has a single
      attempt. */
  lemma ExclusiveExactly(c: Config)
    requires c.maxAttempts >= 1
    ensures Exclusive(c) <==> c.punctual || c.maxAttempts == 1
  {
    if c.punctual {
      forall steps: seq<Step> | IsRun(c, EMPTY, steps) ensures OneHolder(After(c, EMPTY, steps)) {
        ExclusiveOwnership(c, steps);
      }
    } else if c.maxAttempts == 1 {
      forall steps: seq<Step> | IsRun(c, EMPTY, steps) ensures OneHolder(After(c, EMPTY, steps)) {
        RunKeepsClaimedOnce(c, EMPTY, steps);
      }
    } else {
      var steps, s, late, next := TwoHolders(c, "job");
      assert !OneHolder(s);
    }
  }

  /** Terminal rows never change again exactly when workers are punctual. */
  lemma FinalExactly(c: Config)
    requires c.maxAttempts >= 1
    ensures Final(c) <==> c.punctual
  {
    if c.punctual {
      forall steps: seq<Step>, step: Step | IsRun(c, EMPTY, steps) ensures Stands(c, After(c, EMPTY, steps), step) {
        PunctualStands(c, steps, step);
      }
    } else {
      var steps, step := LateReport(c, "job");
    }
  }

  lemma PunctualStands(c: Config, steps: seq<Step>, step: Step)
    requires c.punctual && c.maxAttempts >= 1 && IsRun(c, EMPTY, steps)
    ensures Stands(c, After(c, EMPTY, steps), step)
  {
    InvInitially(c);
    RunKeepsInv(c, EMPTY, steps);
    var s := After(c, EMPTY, steps);
    if Enabled(c, s, step) {
      forall id | id in s.rows && s.rows[id].status.Terminal()
        ensures id in Apply(c, s, step).rows && Apply(c, s, step).rows[id] == s.rows[id]
      {
        StepUsesWork(c, s, step, id);
      }
    }
  }
}

/** ExportService.DownloadURL (internal/service/export_service.go): the reader of the table. */
module ExportDownload {
  import opened Text
  import opened ExportRepository
  import opened ExportRuns

  datatype Download = Unauthenticated | Missing | HasFailed | NotReady(status: Status)
                    | NoStoredObject | StoreFailed | Url(objectKey: string, rowCount: int, sizeBytes: int)

  /** The tenant-scoped read and the branches on the job; `mints` says whether the object store
      can sign a URL for the object key. */
  function DownloadURL(rows: Table, scopeTenant: string, id: string, mints: bool): Download {
    if scopeTenant == "" then Unauthenticated
    else if id !in rows || rows[id].tenant != scopeTenant then Missing
    else
      var j := rows[id];
      match j.status
      case Failed => HasFailed
      case Queued => NotReady(Queued)
      case Processing => NotReady(Processing)
      case Completed =>
        if j.objectKey == "" then NoStoredObject
        else if !mints then StoreFailed
        else Url(j.objectKey, j.rowCount, j.sizeBytes)
  }

  /** Over every run, the "complete but no stored object" answer is never given, and a URL is given
      exactly for the tenant's own completed jobs, whenever the store can sign one. */
  lemma CompletedJobsHaveObjects(c: Config, steps: seq<Step>, scopeTenant: string, id: string, mints: bool)
    requires c.punctual && c.maxAttempts >= 1 && IsRun(c, EMPTY, steps)
    ensures var rows := After(c, EMPTY, steps).rows;
            var answer := DownloadURL(rows, scopeTenant, id, mints);
            var ready := scopeTenant != "" && id in rows && rows[id].tenant == scopeTenant && rows[id].status == Completed;
            var own := scopeTenant != "" && id in rows && rows[id].tenant == scopeTenant;
            && answer != NoStoredObject
            && (answer.Url? <==> ready && mints) && (answer.StoreFailed? <==> ready && !mints)
            && (answer.Unauthenticated? <==> scopeTenant == "") && (answer.Missing? <==> scopeTenant != "" && !own)
            && (answer.HasFailed? <==> own && rows[id].status == Failed)
            && (answer.NotReady? <==> own && rows[id].status in {Queued, Processing})
            && (answer.NotReady? ==> answer.status == rows[id].status)
  {
    if id in After(c, EMPTY, steps).rows {
      RecordsConsistent(c, steps, id);
    }
  }
}
