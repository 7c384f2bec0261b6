/** add_job_to_queue: a job is handed to gearmand with retries, and the attempts are counted. */
module Submission {

  const GEARMAN_FUNCTION_MAX_SIZE := 512
  const GEARMAN_MAX_UNIQUE_SIZE := 64

  /** struct timeval */
  datatype Time = Time(sec: int, usec: int)

  predicate Normal(t: Time) {
    0 <= t.usec < 1000000
  }

  /** elapsed_time, in seconds */
  function Elapsed(t1: Time, t2: Time): real {
    (t2.sec - t1.sec) as real + (t2.usec - t1.usec) as real / 1000000.0
  }

  predicate NotBefore(t1: Time, t2: Time) {
    t1.sec < t2.sec || (t1.sec == t2.sec && t1.usec <= t2.usec)
  }

  lemma ElapsedIsNotNegative(t1: Time, t2: Time)
    requires Normal(t1) && Normal(t2) && NotBefore(t1, t2)
    ensures Elapsed(t1, t2) >= 0.0
  {
    assert ((t2.sec - t1.sec) * 1000000 + (t2.usec - t1.usec)) as real / 1000000.0 == Elapsed(t1, t2);
  }

  /** Whole seconds have passed by the clock, so some time has passed. */
  lemma ElapsedIsPositive(t1: Time, t2: Time, interval: int)
    requires Normal(t1) && Normal(t2) && interval > 0 && t2.sec >= t1.sec + interval
    ensures Elapsed(t1, t2) > 0.0
  {
    assert ((t2.sec - t1.sec) * 1000000 + (t2.usec - t1.usec)) as real / 1000000.0 == Elapsed(t1, t2);
  }

  /** A call: the job as far as it decides about the outcome. */
  datatype Request = Request(queue: string, uniq: nat, encrypts: bool, priority: int, interval: int)

  /** The checks made before anything is sent; they end the same way in a retry. */
  predicate WellFormed(r: Request) {
    && |r.queue| <= GEARMAN_FUNCTION_MAX_SIZE - 1 && r.uniq <= GEARMAN_MAX_UNIQUE_SIZE
    && r.encrypts && 1 <= r.priority <= 3
  }

  function Failures(attempts: seq<bool>): nat {
    if attempts == [] then 0 else Failures(attempts[..|attempts| - 1]) + if attempts[|attempts| - 1] then 0 else 1
  }

  lemma {:induction false} FailuresConcat(a: seq<bool>, b: seq<bool>)
    ensures Failures(a + b) == Failures(a) + Failures(b)
  {
    if b == [] {
      assert a + b == a;
    } else {
      assert (a + b)[..|a + b| - 1] == a + b[..|b| - 1];
      FailuresConcat(a, b[..|b| - 1]);
    }
  }

  /** The jobs lost after the last one that was delivered. */
  function LostSince(outcomes: seq<bool>): nat {
    if outcomes == [] || outcomes[|outcomes| - 1] then 0 else LostSince(outcomes[..|outcomes| - 1]) + 1
  }

  lemma LostSinceNext(outcomes: seq<bool>, ok: bool)
    ensures LostSince(outcomes + [ok]) == if ok then 0 else LostSince(outcomes) + 1
  {
    assert (outcomes + [ok])[..|outcomes|] == outcomes;
  }

  /** No submission has taken longer than the maximum. */
  ghost predicate Bounded(n: nat, sum: real, max: real) {
    0.0 <= sum <= n as real * max && max >= 0.0
  }

  lemma BoundedNext(n: nat, sum: real, max: real, e: real)
    requires Bounded(n, sum, max) && e >= 0.0
    ensures Bounded(n + 1, sum + e, if e > max then e else max)
  {
    var m := if e > max then e else max;
    MulLeft(n as real, max, m);
    assert (n + 1) as real * m == n as real * m + m;
  }

  lemma NothingBounded()
    ensures Bounded(0, 0.0, 0.0)
  {
  }

  lemma NothingLargest()
    ensures Largest(0.0, []) && Sum([]) == 0.0
  {
  }

  lemma MulLeft(k: real, a: real, b: real)
    requires k >= 0.0 && a <= b
    ensures k * a <= k * b
  {
    assert k * (b - a) >= 0.0;
    assert k * (b - a) == k * b - k * a;
  }

  function Sum(ds: seq<real>): real {
    if ds == [] then 0.0 else Sum(ds[..|ds| - 1]) + ds[|ds| - 1]
  }

  /** `m` is the largest of some durations, and 0 if there is none. */
  predicate Largest(m: real, ds: seq<real>) {
    (forall d | d in ds :: 0.0 <= d <= m) && (m in ds || (m == 0.0 && ds == []))
  }

  lemma OneMore(ds: seq<real>, e: real, m: real)
    requires Largest(m, ds) && e >= 0.0
    ensures Sum(ds + [e]) == Sum(ds) + e && Largest(if e > m then e else m, ds + [e])
  {
    assert (ds + [e])[..|ds|] == ds;
    if ds == [] && e == 0.0 { assert (ds + [e])[0] == m; }
    assert (ds + [e])[|ds|] == e;
  }

  /** The average reported with a maximum. */
  function Average(n: nat, sum: real, max: real): (a: real)
    requires n > 0 && Bounded(n, sum, max)
    ensures 0.0 <= a <= max && a * n as real == sum
  {
    sum / n as real
  }

  /** Jobs per second. */
  function Rate(n: nat, seconds: real): (r: real)
    requires seconds > 0.0
    ensures r >= 0.0 && r * seconds == n as real
  {
    n as real / seconds
  }

  /** The global counters of the process. */
  class Submitter {
    var totalSum: real
    var totalMax: real
    var currentMax: real
    var currentRate: real
    var currentAverage: real
    var jobs: nat
    var jobsDelta: nat
    var errors: nat
    var errorsDelta: nat
    var submitTime: Time
    var conErrors: nat
    /** How often the client has been made anew. */
    var clients: nat
    var clock: Time

    /** All attempts, all finished calls that were valid, and what the flushes have reported. */
    ghost var attempts: seq<bool>
    ghost var outcomes: seq<bool>
    ghost var flushedJobs: nat
    ghost var flushedErrors: nat
    /** How long the attempts have taken that are counted since the last flush. */
    ghost var durations: seq<real>

    constructor (now: Time)
      requires Normal(now)
      ensures Valid() && attempts == [] && outcomes == [] && jobs == 0 && errors == 0
    {
      totalSum, totalMax, currentMax, currentRate, currentAverage := 0.0, 0.0, 0.0, 0.0, 0.0;
      jobs, jobsDelta, errors, errorsDelta, conErrors, clients := 0, 0, 0, 0, 0, 0;
      submitTime, clock := Time(0, 0), now;
      attempts, outcomes, flushedJobs, flushedErrors, durations := [], [], 0, 0, [];
    }

    /** Holds between any two calls, and at every retry but for the outcome of the running call. */
    ghost predicate Valid()
      reads this
    {
      && jobs == flushedJobs + jobsDelta
      && errors == flushedErrors + errorsDelta
      && errorsDelta <= jobsDelta
      && Bounded(jobsDelta, totalSum, totalMax)
      && jobsDelta == |durations| && totalSum == Sum(durations) && Largest(totalMax, durations)
      && currentAverage <= currentMax && currentRate >= 0.0
      && Normal(clock) && Normal(submitTime)
      && conErrors == LostSince(outcomes)
      && clients == Failures(attempts)
    }

    /** Nothing but the statistics has changed. */
    twostate predicate SameHistory()
      reads this
    {
      && attempts == old(attempts) && outcomes == old(outcomes)
      && conErrors == old(conErrors) && clients == old(clients)
    }

    /** gettimeofday on a clock that does not run backwards. */
    method Now() returns (t: Time)
      requires Normal(clock)
      modifies this`clock
      ensures Normal(t) && clock == t && NotBefore(old(clock), t)
    {
      var sec: int := *;
      var usec: int := *;
      t := Time(sec, usec);
      if !Normal(t) || !NotBefore(clock, t) { t := clock; }
      clock := t;
    }

    /** One more attempt is counted. */
    method Sample(elapsed: real, ok: bool)
      requires Valid() && elapsed >= 0.0
      modifies this
      ensures Valid() && jobs == old(jobs) + 1 && errors == (old(errors) + if ok then 0 else 1) && jobsDelta > 0
      ensures SameHistory()
      ensures durations == old(durations) + [elapsed] && errorsDelta == (old(errorsDelta) + if ok then 0 else 1)
      ensures flushedJobs == old(flushedJobs) && flushedErrors == old(flushedErrors)
      ensures clock == old(clock) && submitTime == old(submitTime)
    {
      hide LostSince, Failures, Bounded, Elapsed, Sum, Largest;
      BoundedNext(jobsDelta, totalSum, totalMax, elapsed);
      OneMore(durations, elapsed, totalMax);
      durations := durations + [elapsed];
      totalSum := totalSum + elapsed;
      jobsDelta := jobsDelta + 1;
      jobs := jobs + 1;
      if elapsed > totalMax { totalMax := elapsed; }
      if !ok {
        errors := errors + 1;
        errorsDelta := errorsDelta + 1;
      }
    }

    /** The statistics of one attempt; every log_stats_interval seconds they are reported and begin
        anew. */
    method CountAttempt(t1: Time, t2: Time, ok: bool, interval: int)
      requires Valid() && interval > 0 && Normal(t1) && Normal(t2) && NotBefore(t1, t2) && clock == t2
      modifies this
      ensures Valid() && jobs == old(jobs) + 1 && errors == old(errors) + if ok then 0 else 1
      ensures SameHistory()
      ensures flushedJobs == old(flushedJobs) || (flushedJobs == jobs && flushedErrors == errors && jobsDelta == 0)
      ensures var ds := old(durations) + [Elapsed(t1, t2)];
              if old(submitTime).sec > 0 && t2.sec >= old(submitTime).sec + interval then
                var failed := old(errorsDelta) + if ok then 0 else 1;
                && durations == [] && Reported(ds, failed, Elapsed(old(submitTime), t2))
              else durations == ds
    {
      hide LostSince, Failures, Bounded, Elapsed, Sum, Largest;
      ElapsedIsNotNegative(t1, t2);
      Sample(Elapsed(t1, t2), ok);
      if t2.sec >= submitTime.sec + interval {
        if submitTime.sec > 0 { Flush(t2, interval); }
        submitTime := Now();
      }
    }

    /** The statistics that are reported of attempts of these durations, so many of which have failed: the
        successful ones per second, the mean duration and the longest. */
    predicate Reported(ds: seq<real>, failed: nat, seconds: real)
      reads this
    {
      && currentRate * seconds == (|ds| - failed) as real
      && currentAverage * |ds| as real == Sum(ds)
      && Largest(currentMax, ds)
    }

    method Flush(t2: Time, interval: int)
      requires Valid() && jobsDelta > 0 && interval > 0 && Normal(t2) && t2.sec >= submitTime.sec + interval
      modifies this
      ensures Valid() && jobs == old(jobs) && errors == old(errors) && jobsDelta == 0 && errorsDelta == 0
      ensures SameHistory()
      ensures durations == [] && Reported(old(durations), old(errorsDelta), Elapsed(submitTime, t2))
      ensures clock == old(clock) && submitTime == old(submitTime)
    {
      hide LostSince, Failures, Bounded, Elapsed, Largest;
      NothingBounded();
      NothingLargest();
      ElapsedIsPositive(submitTime, t2, interval);
      currentRate := Rate(jobsDelta - errorsDelta, Elapsed(submitTime, t2));
      currentAverage := Average(jobsDelta, totalSum, totalMax);
      currentMax := totalMax;
      flushedJobs, flushedErrors := flushedJobs + jobsDelta, flushedErrors + errorsDelta;
      durations := [];
      totalSum := 0.0;
      jobsDelta := 0;
      errorsDelta := 0;
      totalMax := 0.0;
    }

    /** One submission to libgearman. */
    method Attempt(r: Request) returns (success: bool)
      requires Valid()
      modifies this
      ensures Valid() && attempts == old(attempts) + [success] && outcomes == old(outcomes)
      ensures jobs == old(jobs) + (if r.interval > 0 then 1 else 0)
      ensures errors == old(errors) + (if r.interval > 0 && !success then 1 else 0)
    {
      hide LostSince, Failures, Bounded;
      var t1 := Now();
      success := *;
      var t2 := Now();
      FailuresConcat(attempts, [success]);
      OneAttempt(success);
      attempts := attempts + [success];
      if !success { clients := clients + 1; }
      if r.interval > 0 { CountAttempt(t1, t2, success, r.interval); }
    }

    /** add_job_to_queue: `sent` are the attempts of this call. */
    method AddJobToQueue(r: Request, retries: nat) returns (ok: bool, ghost sent: seq<bool>)
      requires Valid()
      modifies this
      ensures Valid() && attempts == old(attempts) + sent
      ensures if !WellFormed(r) then !ok && sent == [] && outcomes == old(outcomes)
              else
                && 1 <= |sent| <= retries + 1 && (forall i | 0 <= i < |sent| - 1 :: !sent[i])
                && ok == sent[|sent| - 1] && (!ok ==> |sent| == retries + 1)
                && outcomes == old(outcomes) + [ok]
      ensures sent != [] <==> |r.queue| < 512 && r.uniq <= 64 && r.encrypts && r.priority in {1, 2, 3}
      ensures jobs == old(jobs) + (if r.interval > 0 then |sent| else 0)
      ensures errors == old(errors) + (if r.interval > 0 then Failures(sent) else 0)
      decreases retries
    {
      hide LostSince, Failures, Bounded;
      sent, ok := [], false;
      ghost var before := attempts;
      NoFailures(before);
      if !WellFormed(r) { return; }
      var success := Attempt(r);
      sent := [success];
      OneAttempt(success);
      if !success {
        if retries == 0 {
          LostSinceNext(outcomes, false);
          conErrors := conErrors + 1;
          outcomes := outcomes + [false];
          return;
        }
        ghost var more;
        ok, more := AddJobToQueue(r, retries - 1);
        assert before + [success] + more == before + ([success] + more);
        FailuresConcat([success], more);
        sent := [success] + more;
        return;
      }
      LostSinceNext(outcomes, true);
      conErrors := 0;
      outcomes := outcomes + [true];
      ok := true;
    }
  }

  lemma NoFailures(before: seq<bool>)
    ensures Failures([]) == 0 && before + [] == before
  {
  }

  lemma OneAttempt(success: bool)
    ensures Failures([success]) == if success then 0 else 1
  {
    assert [success][..0] == [];
  }
}
