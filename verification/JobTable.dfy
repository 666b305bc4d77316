/** The `maintenance_jobs` table shared by both scheduler adapters, and its timing arithmetic. */
module JobTable {

  const RETRY_MIN_MS: nat := 30 * 1000
  const RETRY_MAX_MS: nat := 15 * 60 * 1000
  const GC_BUCKET_MS: nat := 30 * 60 * 1000

  datatype JobKey = BlobGc | HealthSummaryFlush
  datatype Job = Job(dueAt: nat, retryCount: nat)
  type Jobs = map<JobKey, Job>

  /** Garbage collection is rounded up to the next half hour; other jobs run when asked. */
  function ScheduledDueAt(key: JobKey, dueAt: nat): nat {
    if key.BlobGc? then (dueAt + GC_BUCKET_MS - 1) / GC_BUCKET_MS * GC_BUCKET_MS else dueAt
  }

  /** Inserts the job or moves it earlier; an earlier job and its retry count stay. */
  function Defer(jobs: Jobs, key: JobKey, dueAt: nat): Jobs {
    var scheduled := ScheduledDueAt(key, dueAt);
    if key !in jobs then jobs[key := Job(scheduled, 0)]
    else if jobs[key].dueAt <= scheduled then jobs
    else jobs[key := jobs[key].(dueAt := scheduled)]
  }

  function Reschedule(jobs: Jobs, key: JobKey, dueAt: nat): Jobs {
    jobs[key := Job(ScheduledDueAt(key, dueAt), 0)]
  }

  function Pow2(n: nat): nat {
    if n == 0 then 1 else 2 * Pow2(n - 1)
  }

  /** `min(MAX, MIN * 2 ** max(0, retryCount - 1))`. */
  function RetryDelay(retryCount: nat): nat {
    var delay := RETRY_MIN_MS * Pow2(if retryCount == 0 then 0 else retryCount - 1);
    if delay < RETRY_MAX_MS then delay else RETRY_MAX_MS
  }

  function RescheduleFailed(jobs: Jobs, key: JobKey, retryCount: nat, now: nat): Jobs {
    if key in jobs then jobs[key := Job(now + RetryDelay(retryCount + 1), retryCount + 1)] else jobs
  }

  /** A collection is due at the first half hour from the asked time on, any other job when asked. */
  lemma ScheduledWithinBucket(key: JobKey, dueAt: nat)
    ensures dueAt <= ScheduledDueAt(key, dueAt) < dueAt + GC_BUCKET_MS
    ensures key.BlobGc? ==> ScheduledDueAt(key, dueAt) % (30 * 60 * 1000) == 0
    ensures !key.BlobGc? ==> ScheduledDueAt(key, dueAt) == dueAt
  {
  }

  lemma {:induction false} Pow2Positive(n: nat)
    ensures Pow2(n) >= 1
  {
    if n > 0 { Pow2Positive(n - 1); }
  }

  /** A failed job waits at least half a minute and at most a quarter of an hour. */
  lemma RetryDelayBounds(retryCount: nat)
    ensures RETRY_MIN_MS <= RetryDelay(retryCount) <= RETRY_MAX_MS
  {
    Pow2Positive(if retryCount == 0 then 0 else retryCount - 1);
  }
}
