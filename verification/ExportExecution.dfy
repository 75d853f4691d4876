/** The repository's statements, run one at a time, take the steps of the export runs. */
module ExportExecution {
  import opened Text
  import opened ExportRepository
  import opened ExportRuns

  /** What a worker or the clock asks for: to lock rows for a claim, or any other step. */
  datatype Request = Lock(worker: nat, limit: nat) | Do(step: Step)

  /** Claims lock existing rows; rows are never deleted. */
  ghost predicate LocksRows(s: State) { forall t :: t in s.claims ==> s.claims[t].ids <= s.rows.Keys }

  ghost predicate Possible(repo: Repository, c: Config, s: State, r: Request)
    reads repo
  {
    && repo.rows == s.rows && LocksRows(s)
    && (r.Do? ==> !r.step.BeginClaim? && Enabled(c, s, r.step) && (r.step.Submit? ==> r.step.tenant in repo.tenants))
  }

  /** A report by the holder of a job. */
  method Report(repo: Repository, c: Config, s: State, step: Step) returns (t: State)
    requires (step.Complete? || step.Fail? || step.Retry?) && Possible(repo, c, s, Do(step))
    modifies repo`rows
    ensures t == Apply(c, s, step) && repo.rows == t.rows
  {
    var error;
    match step {
      case Complete(l, key, rowCount, sizeBytes) =>
        error := repo.MarkCompleted(l.job, key, rowCount, sizeBytes, s.now);
      case Fail(l, reason) =>
        error := repo.MarkFailed(l.job, reason, s.now);
      case Retry(l, reason) =>
        error := repo.Requeue(l.job, reason);
    }
    assert error.None?;
    t := s.(rows := repo.rows, held := s.held - {step.lease});
  }

  method LockRows(repo: Repository, c: Config, s: State, worker: nat, limit: nat) returns (t: State, ghost step: Step)
    requires repo.rows == s.rows && LocksRows(s)
    ensures step.BeginClaim? && step.worker == worker && step.limit == limit
    ensures Enabled(c, s, step) && t == Apply(c, s, step) && t.rows == s.rows && LocksRows(t)
  {
    var ids := repo.SelectOldest(limit, Locked(s));
    step := BeginClaim(worker, limit, ids);
    t := s.(claims := s.claims[s.nextTicket := Claim(worker, ids, s.now)], nextTicket := s.nextTicket + 1);
    assert ids <= s.rows.Keys;
  }

  method Update(repo: Repository, c: Config, s: State, ticket: nat) returns (t: State)
    requires Possible(repo, c, s, Do(CommitClaim(ticket)))
    modifies repo`rows
    ensures t == Apply(c, s, CommitClaim(ticket)) && repo.rows == t.rows
  {
    var claim := s.claims[ticket];
    var jobs := repo.MarkProcessing(claim.ids, claim.at);
    t := s.(rows := repo.rows, claims := s.claims - {ticket}, held := s.held + Leases(ticket, claim));
  }

  lemma StepKeepsLocks(c: Config, s: State, step: Step)
    requires LocksRows(s) && Enabled(c, s, step)
    ensures LocksRows(Apply(c, s, step))
  {
    if step.BeginClaim? { assert step.ids <= s.rows.Keys; }
  }

  /** Any request, served by the repository, is a step of the run: same rows, same claims, same
      leases. */
  method Execute(repo: Repository, c: Config, s: State, r: Request) returns (t: State, ghost step: Step)
    requires Possible(repo, c, s, r)
    modifies repo`rows
    ensures if r.Do? then step == r.step else step.BeginClaim? && step.worker == r.worker && step.limit == r.limit
    ensures Enabled(c, s, step) && t == Apply(c, s, step) && repo.rows == t.rows && LocksRows(t)
  {
    if r.Lock? {
      t, step := LockRows(repo, c, s, r.worker, r.limit);
      return;
    }
    step := r.step;
    StepKeepsLocks(c, s, step);
    match r.step
    case Tick(d) => t := s.(now := s.now + d);
    case Submit(id, tenant) =>
      var error := repo.Create(id, tenant, s.now);
      t := s.(rows := repo.rows);
    case CommitClaim(ticket) => t := Update(repo, c, s, ticket);
    case Complete(_, _, _, _) => t := Report(repo, c, s, r.step);
    case Fail(_, _) => t := Report(repo, c, s, r.step);
    case Retry(_, _) => t := Report(repo, c, s, r.step);
    case Crash(worker) =>
      t := s.(held := (set l | l in s.held && l.worker != worker),
              claims := (map t | t in s.claims && s.claims[t].worker != worker :: s.claims[t]));
    case Release =>
      var n := repo.ReleaseStale(c.timeout, c.maxAttempts, s.now);
      t := s.(rows := repo.rows);
  }
}
