/** What a job's row, and the tenant who asks for the download, show after any run: said by the
    steps of the run alone. */
module ExportReports {
  import opened Text
  import opened Encoding
  import opened ExportRepository
  import opened ExportRuns
  import opened ExportDownload

  /** The state before step k of a run; behind the last step when k is the number of steps. */
  ghost function Before(c: Config, s: State, steps: seq<Step>, k: nat): State
    requires IsRun(c, s, steps) && k <= |steps|
    decreases |steps|
  {
    if k == 0 then s else Before(c, Apply(c, s, steps[0]), steps[1..], k - 1)
  }

  lemma {:induction false} AfterIsBeforeNothing(c: Config, s: State, steps: seq<Step>)
    requires IsRun(c, s, steps)
    ensures Before(c, s, steps, |steps|) == After(c, s, steps)
    decreases |steps|
  {
    if steps != [] { AfterIsBeforeNothing(c, Apply(c, s, steps[0]), steps[1..]); }
  }

  lemma {:induction false} NextStep(c: Config, s: State, steps: seq<Step>, k: nat)
    requires IsRun(c, s, steps) && k < |steps|
    ensures Enabled(c, Before(c, s, steps, k), steps[k])
    ensures Before(c, s, steps, k + 1) == Apply(c, Before(c, s, steps, k), steps[k])
    decreases |steps|
  {
    if k > 0 { NextStep(c, Apply(c, s, steps[0]), steps[1..], k - 1); }
  }

  lemma {:induction false} InvBefore(c: Config, s: State, steps: seq<Step>, k: nat)
    requires c.punctual && c.maxAttempts >= 1 && Inv(c, s) && IsRun(c, s, steps) && k <= |steps|
    ensures Inv(c, Before(c, s, steps, k))
    decreases |steps|
  {
    if k > 0 {
      StepKeepsInv(c, s, steps[0]);
      InvBefore(c, Apply(c, s, steps[0]), steps[1..], k - 1);
    }
  }

  // ---- where a row comes from ------------------------------------------------------------

  /** No step removes a row, or changes its tenant or its creation time. */
  lemma StepKeepsOrigin(c: Config, s: State, step: Step, id: string)
    requires Enabled(c, s, step) && id in s.rows
    ensures var rows := Apply(c, s, step).rows;
            id in rows && rows[id].tenant == s.rows[id].tenant && rows[id].createdAt == s.rows[id].createdAt
  {
  }

  /** A row shows the tenant and the time of its submission, ever after. */
  lemma {:induction false} OriginIsSubmission(c: Config, s: State, steps: seq<Step>, i: nat, k: nat)
    requires IsRun(c, s, steps) && i < k <= |steps| && steps[i].Submit?
    ensures var rows := Before(c, s, steps, k).rows;
            && steps[i].id in rows && rows[steps[i].id].tenant == steps[i].tenant
            && rows[steps[i].id].createdAt == Before(c, s, steps, i).now
    decreases k
  {
    NextStep(c, s, steps, k - 1);
    if i < k - 1 {
      OriginIsSubmission(c, s, steps, i, k - 1);
      StepKeepsOrigin(c, Before(c, s, steps, k - 1), steps[k - 1], steps[i].id);
    } else {
      assert Before(c, s, steps, k - 1) == Before(c, s, steps, i);
    }
  }

  /** First come, first served: a claim that takes a job takes every job submitted earlier that
      is queued and not locked by another claim. */
  lemma EarlierJobsFirst(c: Config, steps: seq<Step>, early: nat, late: nat, k: nat)
    requires IsRun(c, EMPTY, steps) && early < k && late < k < |steps|
    requires steps[early].Submit? && steps[late].Submit? && steps[k].BeginClaim? && steps[late].id in steps[k].ids
    requires Before(c, EMPTY, steps, early).now < Before(c, EMPTY, steps, late).now
    requires var s := Before(c, EMPTY, steps, k);
             && steps[early].id in s.rows && s.rows[steps[early].id].status == Queued
             && forall t :: t in s.claims ==> steps[early].id !in s.claims[t].ids
    ensures steps[early].id in steps[k].ids
  {
    var s := Before(c, EMPTY, steps, k);
    NextStep(c, EMPTY, steps, k);
    OriginIsSubmission(c, EMPTY, steps, early, k);
    OriginIsSubmission(c, EMPTY, steps, late, k);
    assert steps[early].id in Claimable(s.rows, Locked(s));
  }

  // ---- reports -----------------------------------------------------------------------------

  /** What is kept of a reason: the first 2000 bytes. */
  predicate IsCut(reason: Bytes, kept: Bytes) {
    kept <= reason && |kept| == if |reason| <= 2000 then |reason| else 2000
  }

  /** A terminal row is final from the state before step k on. */
  lemma {:induction false} FinalFrom(c: Config, steps: seq<Step>, k: nat, n: nat, id: string)
    requires c.punctual && c.maxAttempts >= 1 && IsRun(c, EMPTY, steps) && k <= n <= |steps|
    requires id in Before(c, EMPTY, steps, k).rows && Before(c, EMPTY, steps, k).rows[id].status.Terminal()
    ensures id in Before(c, EMPTY, steps, n).rows
    ensures Before(c, EMPTY, steps, n).rows[id] == Before(c, EMPTY, steps, k).rows[id]
    decreases n
  {
    if k < n {
      FinalFrom(c, steps, k, n - 1, id);
      InvInitially(c);
      InvBefore(c, EMPTY, steps, n - 1);
      NextStep(c, EMPTY, steps, n - 1);
      StepUsesWork(c, Before(c, EMPTY, steps, n - 1), steps[n - 1], id);
    }
  }

  /** The row of a job that was reported complete, at the end of the run. */
  lemma CompletionIsRecorded(c: Config, steps: seq<Step>, k: nat)
    requires c.punctual && c.maxAttempts >= 1 && IsRun(c, EMPTY, steps) && k < |steps| && steps[k].Complete?
    ensures var rows, step := After(c, EMPTY, steps).rows, steps[k];
            && step.lease.job in rows
            && var j := rows[step.lease.job];
               && j.status == Completed && j.objectKey == step.objectKey && j.objectKey != ""
               && j.rowCount == step.rowCount && j.sizeBytes == step.sizeBytes && j.error == []
               && j.finishedAt == Some(Before(c, EMPTY, steps, k).now) && j.startedAt == Some(step.lease.at)
               && step.lease.job in Before(c, EMPTY, steps, k).rows
               && j.attempts == Before(c, EMPTY, steps, k).rows[step.lease.job].attempts
  {
    var s, id := Before(c, EMPTY, steps, k), steps[k].lease.job;
    NextStep(c, EMPTY, steps, k);
    InvInitially(c);
    InvBefore(c, EMPTY, steps, k);
    assert Current(c, s, steps[k].lease);
    FinalFrom(c, steps, k + 1, |steps|, id);
    AfterIsBeforeNothing(c, EMPTY, steps);
  }

  /** The row of a job that was reported failed, at the end of the run. */
  lemma FailureIsRecorded(c: Config, steps: seq<Step>, k: nat)
    requires c.punctual && c.maxAttempts >= 1 && IsRun(c, EMPTY, steps) && k < |steps| && steps[k].Fail?
    ensures var rows, step := After(c, EMPTY, steps).rows, steps[k];
            && step.lease.job in rows && step.lease.job in Before(c, EMPTY, steps, k).rows
            && var j, was := rows[step.lease.job], Before(c, EMPTY, steps, k).rows[step.lease.job];
               && IsCut(step.reason, j.error) && j.objectKey == ""
               && j == was.(status := Failed, error := j.error, finishedAt := Some(Before(c, EMPTY, steps, k).now))
  {
    var s, id := Before(c, EMPTY, steps, k), steps[k].lease.job;
    NextStep(c, EMPTY, steps, k);
    InvInitially(c);
    InvBefore(c, EMPTY, steps, k);
    assert Current(c, s, steps[k].lease);
    FinalFrom(c, steps, k + 1, |steps|, id);
    AfterIsBeforeNothing(c, EMPTY, steps);
  }

  /** What was reported complete is what the submitting tenant downloads, after any continuation;
      for everybody else the export does not exist. */
  lemma CompletionIsServed(c: Config, steps: seq<Step>, i: nat, k: nat, scopeTenant: string, mints: bool)
    requires c.punctual && c.maxAttempts >= 1 && IsRun(c, EMPTY, steps) && i < |steps| && k < |steps|
    requires steps[i].Submit? && steps[k].Complete? && steps[k].lease.job == steps[i].id
    ensures DownloadURL(After(c, EMPTY, steps).rows, scopeTenant, steps[i].id, mints)
            == if scopeTenant == "" then Unauthenticated
               else if scopeTenant != steps[i].tenant then Missing
               else if mints then Url(steps[k].objectKey, steps[k].rowCount, steps[k].sizeBytes) else StoreFailed
  {
    CompletionIsRecorded(c, steps, k);
    OriginIsSubmission(c, EMPTY, steps, i, |steps|);
    AfterIsBeforeNothing(c, EMPTY, steps);
  }

  lemma FailureIsServed(c: Config, steps: seq<Step>, i: nat, k: nat, scopeTenant: string, mints: bool)
    requires c.punctual && c.maxAttempts >= 1 && IsRun(c, EMPTY, steps) && i < |steps| && k < |steps|
    requires steps[i].Submit? && steps[k].Fail? && steps[k].lease.job == steps[i].id
    ensures DownloadURL(After(c, EMPTY, steps).rows, scopeTenant, steps[i].id, mints)
            == if scopeTenant == "" then Unauthenticated else if scopeTenant != steps[i].tenant then Missing else HasFailed
  {
    FailureIsRecorded(c, steps, k);
    OriginIsSubmission(c, EMPTY, steps, i, |steps|);
    AfterIsBeforeNothing(c, EMPTY, steps);
  }

  // ---- claims and recoveries -----------------------------------------------------------------

  /** A committed claim: the row is processing since the claim began, with one more attempt, and
      the worker holds it. */
  lemma ClaimIsRecorded(c: Config, s: State, ticket: nat, id: string)
    requires Enabled(c, s, CommitClaim(ticket)) && id in s.rows && id in s.claims[ticket].ids
    ensures var s', claim := Apply(c, s, CommitClaim(ticket)), s.claims[ticket];
            && id in s'.rows
            && s'.rows[id] == s.rows[id].(status := Processing, attempts := s.rows[id].attempts + 1, startedAt := Some(claim.at))
            && Lease(ticket, id, claim.worker, claim.at) in s'.held
  {
  }

  /** A job handed back waits in the queue again, with its attempts and the reason. */
  lemma RetryIsRecorded(c: Config, s: State, lease: Lease, reason: Bytes)
    requires Enabled(c, s, Retry(lease, reason))
    ensures var rows := Apply(c, s, Retry(lease, reason)).rows;
            && lease.job in rows && IsCut(reason, rows[lease.job].error)
            && rows[lease.job] == s.rows[lease.job].(status := Queued, startedAt := None, error := rows[lease.job].error)
  {
  }

  /** A release takes back exactly the jobs that have been processing for longer than the timeout:
      those with attempts left are queued, the others have failed now. */
  lemma ReleaseExactly(c: Config, s: State, id: string)
    requires id in s.rows
    ensures var j, rows := s.rows[id], Apply(c, s, Release).rows;
            && id in rows
            && rows[id] ==
                 if j.status != Processing || j.startedAt.None? || s.now <= j.startedAt.value + c.timeout then j
                 else j.(status := if j.attempts < c.maxAttempts then Queued else Failed, startedAt := None,
                         finishedAt := if j.attempts < c.maxAttempts then None else Some(s.now),
                         error := "worker did not finish the job " + "before the visibility timeout expired")
  {
  }
}
