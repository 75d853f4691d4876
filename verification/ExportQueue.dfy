/** The export job table (internal/repository/export_repository.go): what each statement does
    to a row, and the repository whose methods run those statements. */
module ExportRepository {
  import opened Text
  import opened Encoding

  datatype Status = Queued | Processing | Completed | Failed
  {
    /** ExportStatus.Terminal. */
    predicate Terminal() { Completed? || Failed? }
  }

  datatype Job = Job(tenant: string, createdAt: nat, status: Status, attempts: nat,
                     startedAt: Option<nat>, finishedAt: Option<nat>,
                     objectKey: string, rowCount: int, sizeBytes: int, error: Bytes)

  type Table = map<string, Job>

  datatype Error = NotFound

  const UNFINISHED: Bytes := "worker did not finish the job "
  const EXPIRED: Bytes := "before the visibility timeout expired"
  const STALE: Bytes := UNFINISHED + EXPIRED

  // ---- what the statements do to one row ------------------------------------------------

  function Enqueued(tenant: string, now: nat): Job {
    Job(tenant, now, Queued, 0, None, None, "", 0, 0, "")
  }

  function Claimed(j: Job, now: nat): Job {
    j.(status := Processing, attempts := j.attempts + 1, startedAt := Some(now))
  }

  function Finished(j: Job, objectKey: string, rowCount: int, sizeBytes: int, now: nat): Job {
    j.(status := Completed, objectKey := objectKey, rowCount := rowCount, sizeBytes := sizeBytes,
       error := "", finishedAt := Some(now))
  }

  /** Cuts bytes, as Go's slices do. */
  function Truncate(s: Bytes, max: nat): Bytes {
    if |s| <= max then s else s[..max]
  }

  function GivenUp(j: Job, reason: Bytes, now: nat): Job {
    j.(status := Failed, error := Truncate(reason, 2000), finishedAt := Some(now))
  }

  function Requeued(j: Job, reason: Bytes): Job {
    j.(status := Queued, error := Truncate(reason, 2000), startedAt := None)
  }

  function Released(j: Job, maxAttempts: int, now: nat): Job {
    j.(status := if j.attempts >= maxAttempts then Failed else Queued,
       error := STALE,
       finishedAt := if j.attempts >= maxAttempts then Some(now) else None,
       startedAt := None)
  }

  predicate Stale(j: Job, cutoff: int) {
    j.status == Processing && j.startedAt.Some? && j.startedAt.value < cutoff
  }

  // ---- whole-table updates --------------------------------------------------------------

  /** Queued rows that no unfinished claim has locked. */
  function Claimable(rows: Table, locked: set<string>): set<string> {
    set id | id in rows && rows[id].status == Queued && id !in locked
  }

  /** `ids` may be the rows that SELECT ... ORDER BY created_at FOR UPDATE SKIP LOCKED LIMIT
      returns: as many as allowed, and none newer than a claimable row left behind. */
  predicate IsSelection(rows: Table, locked: set<string>, limit: nat, ids: set<string>) {
    && ids <= Claimable(rows, locked)
    && |ids| == (if limit <= |Claimable(rows, locked)| then limit else |Claimable(rows, locked)|)
    && forall a, b :: a in ids && b in Claimable(rows, locked) - ids ==> rows[a].createdAt <= rows[b].createdAt
  }

  function ClaimAll(rows: Table, ids: set<string>, now: nat): (r: Table)
    ensures r.Keys == rows.Keys
  {
    map id | id in rows :: if id in ids then Claimed(rows[id], now) else rows[id]
  }

  function ReleaseAll(rows: Table, cutoff: int, maxAttempts: int, now: nat): (r: Table)
    ensures r.Keys == rows.Keys
  {
    map id | id in rows :: if Stale(rows[id], cutoff) then Released(rows[id], maxAttempts, now) else rows[id]
  }

  function QueuedRows(rows: Table): set<string> {
    set id | id in rows && rows[id].status == Queued
  }

  /** Oldest rows first, until the limit or the candidates run out. */
  lemma SelectionDone(rows: Table, locked: set<string>, limit: nat, ids: set<string>)
    requires ids <= Claimable(rows, locked) && |ids| <= limit
    requires ids == Claimable(rows, locked) || |ids| == limit
    requires forall a, b :: a in ids && b in Claimable(rows, locked) - ids ==> rows[a].createdAt <= rows[b].createdAt
    ensures IsSelection(rows, locked, limit, ids)
  {
    SubsetSize(ids, Claimable(rows, locked));
  }

  lemma ReleasedAll(rows: Table, after: Table, cutoff: int, maxAttempts: int, now: nat)
    requires after.Keys == rows.Keys
    requires forall id :: id in rows ==>
               after[id] == if Stale(rows[id], cutoff) then Released(rows[id], maxAttempts, now) else rows[id]
    ensures after == ReleaseAll(rows, cutoff, maxAttempts, now)
  {
  }

  class Repository {
    var rows: Table
    /** The tenants a job may refer to (the foreign key). */
    var tenants: set<string>

    constructor (tenants: set<string>)
      ensures rows == map[] && this.tenants == tenants
    {
      rows := map[];
      this.tenants := tenants;
    }

    /** INSERT with a database-generated id. */
    method Create(id: string, tenant: string, now: nat) returns (error: Option<Error>)
      requires id !in rows
      modifies this`rows
      ensures error.None? <==> tenant in tenants
      ensures rows == if tenant in tenants then old(rows)[id := Enqueued(tenant, now)] else old(rows)
    {
      if tenant !in tenants {
        return Some(NotFound);
      }
      rows := rows[id := Enqueued(tenant, now)];
      return None;
    }

    /** The oldest candidate. */
    method Oldest(candidates: set<string>) returns (id: string)
      requires candidates != {} && candidates <= rows.Keys
      ensures id in candidates
      ensures forall other :: other in candidates ==> rows[id].createdAt <= rows[other].createdAt
    {
      id :| id in candidates;
      var rest := candidates - {id};
      while rest != {}
        invariant id in candidates && rest <= candidates
        invariant forall other :: other in candidates - rest ==> rows[id].createdAt <= rows[other].createdAt
        decreases |rest|
      {
        var next :| next in rest;
        if rows[next].createdAt < rows[id].createdAt {
          id := next;
        }
        rest := rest - {next};
      }
    }

    /** SELECT ... ORDER BY created_at FOR UPDATE SKIP LOCKED LIMIT. */
    method SelectOldest(limit: nat, locked: set<string>) returns (ids: set<string>)
      ensures IsSelection(rows, locked, limit, ids)
    {
      ids := {};
      ghost var all := Claimable(rows, locked);
      var left := Claimable(rows, locked);
      while left != {} && |ids| < limit
        invariant left == all - ids && ids <= all <= rows.Keys && |ids| <= limit
        invariant forall a, b :: a in ids && b in left ==> rows[a].createdAt <= rows[b].createdAt
        decreases limit - |ids|
      {
        var id := Oldest(left);
        ids, left := ids + {id}, left - {id};
      }
      SelectionDone(rows, locked, limit, ids);
    }

    /** The rows of a finished claim, in the order the database returns them. */
    method Returning(ids: set<string>) returns (jobs: seq<(string, Job)>)
      requires ids <= rows.Keys
      ensures |jobs| == |ids|
      ensures forall k :: 0 <= k < |jobs| ==> jobs[k].0 in ids && jobs[k].1 == rows[jobs[k].0]
      ensures forall id :: id in ids ==> (id, rows[id]) in jobs
    {
      jobs := [];
      var left := ids;
      while left != {}
        invariant left <= ids && |jobs| == |ids| - |left|
        invariant forall k :: 0 <= k < |jobs| ==> jobs[k].0 in ids && jobs[k].1 == rows[jobs[k].0]
        invariant forall id :: id in ids - left ==> (id, rows[id]) in jobs
        decreases |left|
      {
        var id :| id in left;
        jobs := jobs + [(id, rows[id])];
        left := left - {id};
      }
    }

    /** UPDATE ... FROM claimed RETURNING: the selected rows are marked processing. */
    method MarkProcessing(ids: set<string>, now: nat) returns (jobs: seq<(string, Job)>)
      requires ids <= rows.Keys
      modifies this`rows
      ensures rows == ClaimAll(old(rows), ids, now)
      ensures |jobs| == |ids|
      ensures forall k :: 0 <= k < |jobs| ==> jobs[k].0 in ids && ids <= rows.Keys && jobs[k].1 == rows[jobs[k].0]
      ensures forall id :: id in ids ==> id in rows && (id, rows[id]) in jobs
    {
      rows := ClaimAll(rows, ids, now);
      jobs := Returning(ids);
    }

    /** One claim: up to `limit` rows are selected and marked processing. `locked` are the rows
        other unfinished transactions hold; they are skipped. */
    method ClaimQueued(limit: int, locked: set<string>, now: nat) returns (ids: set<string>, jobs: seq<(string, Job)>)
      modifies this`rows
      ensures limit <= 0 ==> ids == {}
      ensures limit > 0 ==> IsSelection(old(rows), locked, limit, ids)
      ensures rows == ClaimAll(old(rows), ids, now)
      ensures |jobs| == |ids|
      ensures forall k :: 0 <= k < |jobs| ==> jobs[k].0 in ids && ids <= rows.Keys && jobs[k].1 == rows[jobs[k].0]
      ensures forall id :: id in ids ==> id in rows && (id, rows[id]) in jobs
    {
      ids, jobs := {}, [];
      if limit > 0 {
        ids := SelectOldest(limit, locked);
        jobs := MarkProcessing(ids, now);
      }
      assert limit <= 0 ==> rows == ClaimAll(rows, {}, now);
    }

    method MarkCompleted(id: string, objectKey: string, rowCount: int, sizeBytes: int, now: nat)
      returns (error: Option<Error>)
      modifies this`rows
      ensures error.None? <==> id in old(rows)
      ensures rows == if id in old(rows)
                      then old(rows)[id := Finished(old(rows)[id], objectKey, rowCount, sizeBytes, now)] else old(rows)
    {
      if id !in rows {
        return Some(NotFound);
      }
      rows := rows[id := Finished(rows[id], objectKey, rowCount, sizeBytes, now)];
      return None;
    }

    method MarkFailed(id: string, reason: Bytes, now: nat) returns (error: Option<Error>)
      modifies this`rows
      ensures error.None? <==> id in old(rows)
      ensures rows == if id in old(rows) then old(rows)[id := GivenUp(old(rows)[id], reason, now)] else old(rows)
    {
      if id !in rows {
        return Some(NotFound);
      }
      rows := rows[id := GivenUp(rows[id], reason, now)];
      return None;
    }

    method Requeue(id: string, reason: Bytes) returns (error: Option<Error>)
      modifies this`rows
      ensures error.None? <==> id in old(rows)
      ensures rows == if id in old(rows) then old(rows)[id := Requeued(old(rows)[id], reason)] else old(rows)
    {
      if id !in rows {
        return Some(NotFound);
      }
      rows := rows[id := Requeued(rows[id], reason)];
      return None;
    }

    /** Every processing row started before now - olderThan goes back to the queue, or fails
        when its attempts are used up. */
    method ReleaseStale(olderThan: nat, maxAttempts: int, now: nat) returns (n: nat)
      modifies this`rows
      ensures rows == ReleaseAll(old(rows), now - olderThan, maxAttempts, now)
      ensures n == |set id | id in old(rows) && Stale(old(rows)[id], now - olderThan)|
    {
      var cutoff := now - olderThan;
      var stale := set id | id in rows && Stale(rows[id], cutoff);
      n := |stale|;
      var pending := stale;
      ghost var before := rows;
      while pending != {}
        invariant pending <= stale && rows.Keys == before.Keys
        invariant forall id :: id in before ==>
                    rows[id] == if id !in pending && Stale(before[id], cutoff) then Released(before[id], maxAttempts, now)
                                else before[id]
        decreases |pending|
      {
        var id :| id in pending;
        rows := rows[id := Released(rows[id], maxAttempts, now)];
        pending := pending - {id};
      }
      ReleasedAll(before, rows, cutoff, maxAttempts, now);
    }

    method CountQueued() returns (n: nat)
      ensures n == |QueuedRows(rows)|
    {
      n := |QueuedRows(rows)|;
    }
  }

  /** A claim lowers the reported queue depth by exactly the jobs it hands out. */
  lemma ClaimDrainsQueue(rows: Table, locked: set<string>, limit: nat, ids: set<string>, now: nat)
    requires IsSelection(rows, locked, limit, ids)
    ensures QueuedRows(ClaimAll(rows, ids, now)) == QueuedRows(rows) - ids
    ensures |QueuedRows(ClaimAll(rows, ids, now))| + |ids| == |QueuedRows(rows)|
  {
    var left := QueuedRows(ClaimAll(rows, ids, now));
    assert left == QueuedRows(rows) - ids;
    assert left + ids == QueuedRows(rows);
  }
}
