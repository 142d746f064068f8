/** `poll_job`: the polling loop of the qualification harness. */
module PollJob {
  import opened Text
  import opened Json

  /** What one GET of the job can come to. `Status` is any answer but 200; `Transient` the
      errors the loop forgives for a while; a `ReadTimeout` is a TimeoutError of its own,
      and `Crash` any other exception. */
  datatype Response =
    | Body(job: Json)
    | Status(code: int)
    | Transient(text: string)
    | ReadTimeout
    | Crash

  type Job = map<string, Json>

  datatype PollEnd = Returned(job: Job) | TimedOut | Crashed

  /** The loop's surroundings: the readings of the monotonic clock, the first one fixing
      the deadline and the others checked before each request, and the answers in order. */
  datatype Trace = Trace(clock: nat -> real, responses: nat -> Response, timeout: real, interval: real, maxErrors: int)

  const TERMINAL_STATES: set<string> := {"COMPLETED", "COMPLETED_WITH_WARNINGS", "FAILED", "CANCELLED", "EXPIRED"}

  // ---- the declarative specification ----------------------------------------------------------------

  predicate IsTerminal(r: Response)
  {
    r.Body? && r.job.Obj? && Field(r.job.fields, "state").Text? && Field(r.job.fields, "state").s in TERMINAL_STATES
  }

  /** A body that is no object, or whose state cannot be looked up in a set. */
  predicate IsFatal(r: Response)
  {
    r.Crash? || (r.Body? && (!r.job.Obj? || Field(r.job.fields, "state").Arr? || Field(r.job.fields, "state").Obj?))
  }

  predicate IsNotFound(r: Response) { r == Status(404) }

  predicate IsError(r: Response)
  {
    r.Transient? || (r.Status? && r.code != 404)
  }

  /** How many adjacent errors end the loop: at least one, whatever the limit. */
  function WindowSize(t: Trace): nat
  {
    if t.maxErrors < 1 then 1 else t.maxErrors
  }

  ghost predicate EndsWindow(t: Trace, i: nat)
  {
    WindowSize(t) <= i + 1 && forall k: nat | i + 1 - WindowSize(t) <= k <= i :: IsError(t.responses(k))
  }

  ghost predicate Decisive(t: Trace, i: nat)
  {
    var r := t.responses(i);
    IsTerminal(r) || IsNotFound(r) || IsFatal(r) || r.ReadTimeout? || EndsWindow(t, i)
  }

  /** The last job received before request `i`. */
  function LastJob(t: Trace, i: nat): Option<Job>
  {
    if i == 0 then None
    else
      var r := t.responses(i - 1);
      if r.Body? && r.job.Obj? then Some(r.job.fields) else LastJob(t, i - 1)
  }

  function ErrorText(r: Response): string
  {
    match r
    case Status(code) => "HTTP " + Decimal(code)
    case Transient(text) => text
    case _ => ""
  }

  /** The JOB_LOST record made of the last known job. */
  function Lost(last: Option<Job>, jobId: Json, error: Option<string>): Job
  {
    var base := (match last case Some(job) => job case None => map[]);
    var lost := base["state" := Text("JOB_LOST")]["job_id" := jobId];
    match error
    case None => lost
    case Some(text) => lost["poll_error" := Text(text)]
  }

  function ResultAt(t: Trace, jobId: Json, i: nat): PollEnd
  {
    var r := t.responses(i);
    if IsFatal(r) then Crashed
    else if r.ReadTimeout? then TimedOut
    else if r.Body? then Returned(r.job.fields)
    else Returned(Lost(LastJob(t, i), jobId, if IsNotFound(r) then None else Some(ErrorText(r))))
  }

  /** The check before request `i` finds time left. */
  predicate InTime(t: Trace, i: nat)
  {
    t.clock(i + 1) < t.clock(0) + t.timeout
  }

  /** The last of the first `n` requests had a decisive answer. */
  ghost predicate DecidedAfter(t: Trace, n: nat)
  {
    n > 0 && Decisive(t, n - 1)
  }

  /** The loop issues `requests` requests, all of them before the deadline; it ends at the
      first decisive answer, or at the first reading at or past the deadline. */
  ghost predicate PollSpec(t: Trace, jobId: Json, end: PollEnd, requests: nat)
  {
    && (forall i: nat | i < requests :: InTime(t, i))
    && (forall n: nat | n < requests :: !DecidedAfter(t, n))
    && if DecidedAfter(t, requests) then end == ResultAt(t, jobId, requests - 1)
       else end == TimedOut && !InTime(t, requests)
  }

  /** The specification leaves nothing open. */
  lemma PollSpecUnique(t: Trace, jobId: Json, end: PollEnd, requests: nat, end': PollEnd, requests': nat)
    requires PollSpec(t, jobId, end, requests) && PollSpec(t, jobId, end', requests')
    ensures end == end' && requests == requests'
  {
    assert requests < requests' ==> InTime(t, requests) && !DecidedAfter(t, requests);
    assert requests' < requests ==> InTime(t, requests') && !DecidedAfter(t, requests');
  }

  // ---- the error counter ----------------------------------------------------------------------------

  /** The length of the maximal run of errors just before request `i`. */
  function ErrorSuffix(t: Trace, i: nat): (n: nat)
    ensures n <= i
  {
    if i == 0 || !IsError(t.responses(i - 1)) then 0 else 1 + ErrorSuffix(t, i - 1)
  }

  lemma {:induction false} SuffixIsErrors(t: Trace, i: nat, k: nat)
    requires i - ErrorSuffix(t, i) <= k < i
    ensures IsError(t.responses(k))
  {
    if k < i - 1 { SuffixIsErrors(t, i - 1, k); }
  }

  lemma {:induction false} SuffixIsMaximal(t: Trace, i: nat)
    ensures ErrorSuffix(t, i) < i ==> !IsError(t.responses(i - ErrorSuffix(t, i) - 1))
  {
    if ErrorSuffix(t, i) > 0 { SuffixIsMaximal(t, i - 1); }
  }

  /** The counter has reached the limit exactly when a window of errors ends here. */
  lemma WindowIff(t: Trace, i: nat)
    ensures EndsWindow(t, i) <==> ErrorSuffix(t, i + 1) >= WindowSize(t)
  {
    var n, w := ErrorSuffix(t, i + 1), WindowSize(t);
    if n >= w {
      forall k: nat | i + 1 - w <= k <= i ensures IsError(t.responses(k)) { SuffixIsErrors(t, i + 1, k); }
    } else if w <= i + 1 {
      SuffixIsMaximal(t, i + 1);
      assert i + 1 - w <= i - n <= i;
    }
  }

  // ---- the clock ------------------------------------------------------------------------------------

  /** The clock is monotone, and from one check to the next at least the sleep passes. */
  ghost predicate Ticks(t: Trace)
  {
    && t.interval > 0.0 && t.clock(1) >= t.clock(0)
    && forall i: nat :: i >= 1 ==> t.clock(i + 1) >= t.clock(i) + t.interval
  }

  lemma {:induction false} ClockAdvances(t: Trace, i: nat)
    requires Ticks(t)
    ensures t.clock(i + 1) >= t.clock(0) + i as real * t.interval
  {
    if i > 0 {
      ClockAdvances(t, i - 1);
      assert i as real * t.interval == (i - 1) as real * t.interval + t.interval;
    }
  }

  /** `ceil(timeout / interval)`. */
  function MaxRequests(t: Trace): nat
    requires t.interval > 0.0
  {
    if t.timeout <= 0.0 then 0
    else
      var q := t.timeout / t.interval;
      if q.Floor as real == q then q.Floor else q.Floor + 1
  }

  /** No more than the time has room for, and no fewer. */
  lemma MaxRequestsIs(t: Trace)
    requires t.interval > 0.0
    ensures t.timeout <= 0.0 ==> MaxRequests(t) == 0
    ensures t.timeout > 0.0 ==>
              var n := MaxRequests(t); (n - 1) as real * t.interval < t.timeout <= n as real * t.interval
  {
    if t.timeout > 0.0 {
      var n := MaxRequests(t);
      Scaled((n - 1) as real, t.timeout, t.interval, n as real);
    }
  }

  lemma Scaled(a: real, x: real, y: real, b: real)
    requires y > 0.0 && a < x / y <= b
    ensures a * y < x <= b * y
  {
    var q := x / y;
    assert q * y == x;
    assert a * y < q * y && q * y <= b * y;
  }

  lemma Quotient(x: real, c: real, n: nat)
    requires c > 0.0 && n as real * c < x
    ensures n as real < x / c
  {
    var a := x / c - n as real;
    assert a * c == (x / c) * c - n as real * c > 0.0;
    assert a <= 0.0 ==> a * c <= 0.0;
  }

  /** There is time for no more than that many requests. */
  lemma TimeForRequests(t: Trace, i: nat)
    requires Ticks(t) && InTime(t, i)
    ensures i < MaxRequests(t)
  {
    ClockAdvances(t, i);
    assert i as real * t.interval >= 0.0;
    Quotient(t.timeout, t.interval, i);
  }

  // ---- one answer -----------------------------------------------------------------------------------

  lemma AtBody(t: Trace, i: nat)
    requires t.responses(i).Body? && !IsFatal(t.responses(i))
    ensures Decisive(t, i) <==> IsTerminal(t.responses(i))
    ensures ErrorSuffix(t, i + 1) == 0 && LastJob(t, i + 1) == Some(t.responses(i).job.fields)
  {
    WindowIff(t, i);
  }

  lemma AtError(t: Trace, i: nat)
    requires IsError(t.responses(i))
    ensures Decisive(t, i) <==> ErrorSuffix(t, i) + 1 >= WindowSize(t)
    ensures ErrorSuffix(t, i + 1) == ErrorSuffix(t, i) + 1 && LastJob(t, i + 1) == LastJob(t, i)
  {
    WindowIff(t, i);
  }

  // ---- the loop -------------------------------------------------------------------------------------

  /** Meets the specification, within the time there is; sleeps only between requests,
      never after a decisive answer. */
  method PollJob(t: Trace, jobId: Json) returns (end: PollEnd, requests: nat, sleeps: nat)
    requires Ticks(t)
    ensures PollSpec(t, jobId, end, requests)
    ensures requests <= MaxRequests(t)
    ensures sleeps == if DecidedAfter(t, requests) then requests - 1 else requests
  {
    var deadline := t.clock(0) + t.timeout;
    var consecutiveErrors, last: Option<Job> := 0, None;
    requests, sleeps := 0, 0;
    while t.clock(requests + 1) < deadline
      invariant forall i: nat | i < requests :: InTime(t, i)
      invariant forall n: nat | n <= requests :: !DecidedAfter(t, n)
      invariant requests <= MaxRequests(t) && sleeps == requests
      invariant consecutiveErrors == ErrorSuffix(t, requests)
      invariant last == LastJob(t, requests)
      decreases MaxRequests(t) - requests
    {
      TimeForRequests(t, requests);
      var response := t.responses(requests);
      requests := requests + 1;
      if IsFatal(response) {
        return Crashed, requests, sleeps;
      }
      if response.ReadTimeout? {
        return TimedOut, requests, sleeps;
      }
      if response.Body? {
        AtBody(t, requests - 1);
        consecutiveErrors, last := 0, Some(response.job.fields);
        if IsTerminal(response) {
          return Returned(response.job.fields), requests, sleeps;
        }
      } else if IsNotFound(response) {
        return Returned(Lost(last, jobId, None)), requests, sleeps;
      } else {
        AtError(t, requests - 1);
        consecutiveErrors := consecutiveErrors + 1;
        if consecutiveErrors >= t.maxErrors {
          return Returned(Lost(last, jobId, Some(ErrorText(response)))), requests, sleeps;
        }
      }
      sleeps := sleeps + 1;
    }
    end := TimedOut;
  }

  /** JOB_LOST keeps every other field of the last job seen. */
  lemma LostKeepsFields(last: Option<Job>, jobId: Json, error: Option<string>, key: string)
    ensures var lost := Lost(last, jobId, error);
            && lost["state"] == Text("JOB_LOST") && lost["job_id"] == jobId
            && (error.Some? ==> lost["poll_error"] == Text(error.value))
            && (key != "state" && key != "job_id" && (key != "poll_error" || error.None?) ==>
                  (last.Some? && key in last.value <==> key in lost)
                  && (key in lost ==> lost[key] == last.value[key]))
  {
    assert "state" != "job_id" && "poll_error"[0] != "state"[0] && "poll_error"[0] != "job_id"[0];
  }

  // ---- how a job is lost, and when time runs out ----------------------------------------------------

  predicate ShowsJob(r: Response) { r.Body? && r.job.Obj? }

  lemma {:induction false} NeverSeenIff(t: Trace, i: nat)
    ensures LastJob(t, i).None? <==> forall k: nat | k < i :: !ShowsJob(t.responses(k))
  {
    if i > 0 { NeverSeenIff(t, i - 1); }
  }

  const LOST_KEYS: set<string> := {"state", "job_id"}

  /** A 404 loses the job whether or not it was ever seen. The record then holds nothing
      but the two fields exactly when no job was seen, or none with any other field. */
  lemma NotFoundLoses(t: Trace, jobId: Json, end: PollEnd, n: nat)
    requires PollSpec(t, jobId, end, n) && DecidedAfter(t, n) && IsNotFound(t.responses(n - 1))
    ensures end.Returned? && Field(end.job, "state") == Text("JOB_LOST") && Field(end.job, "job_id") == jobId
    ensures end.job.Keys == LOST_KEYS <==>
              || (forall k: nat | k < n - 1 :: !ShowsJob(t.responses(k)))
              || (LastJob(t, n - 1).Some? && LastJob(t, n - 1).value.Keys <= LOST_KEYS)
  {
    NeverSeenIff(t, n - 1);
    LostKeys(LastJob(t, n - 1), jobId);
  }

  lemma LostKeys(last: Option<Job>, jobId: Json)
    ensures var lost := Lost(last, jobId, None);
            && lost.Keys == LOST_KEYS + (if last.Some? then last.value.Keys else {})
            && Field(lost, "state") == Text("JOB_LOST") && Field(lost, "job_id") == jobId
  {
    assert "state" != "job_id";
  }

  /** Polling times out when the deadline passes without a decisive answer, or at once when
      a single request times out in reading. */
  lemma TimedOutIff(t: Trace, jobId: Json, end: PollEnd, n: nat)
    requires PollSpec(t, jobId, end, n)
    ensures end.TimedOut? <==> !DecidedAfter(t, n) || t.responses(n - 1).ReadTimeout?
  {
  }

  // ---- which states end the polling ------------------------------------------------------------------------

  /** An answer with a job in some textual state is decisive exactly in these five. */
  lemma TerminalStatesIff(t: Trace, i: nat, job: Job, state: string)
    requires t.responses(i) == Body(Obj(job)) && Field(job, "state") == Text(state)
    ensures Decisive(t, i) <==>
              || state == "COMPLETED" || state == "COMPLETED_WITH_WARNINGS"
              || state == "FAILED" || state == "CANCELLED" || state == "EXPIRED"
  {
    AtBody(t, i);
  }

  /** A job answered in one of them to a request that is made ends the polling, and is what
      it returns. */
  lemma TerminalJobReturned(t: Trace, jobId: Json, end: PollEnd, n: nat, i: nat, job: Job)
    requires PollSpec(t, jobId, end, n) && i < n
    requires t.responses(i) == Body(Obj(job)) && IsTerminal(t.responses(i))
    ensures n == i + 1 && end == Returned(job)
  {
    AtBody(t, i);
    assert DecidedAfter(t, i + 1);
  }

  /** Enough adjacent errors lose the job; the record says what the last of them was. */
  lemma ErrorsLose(t: Trace, jobId: Json, end: PollEnd, n: nat)
    requires PollSpec(t, jobId, end, n) && DecidedAfter(t, n) && IsError(t.responses(n - 1))
    ensures end.Returned? && Field(end.job, "state") == Text("JOB_LOST") && Field(end.job, "job_id") == jobId
    ensures match t.responses(n - 1)
            case Status(code) => Field(end.job, "poll_error") == Text("HTTP " + Decimal(code))
            case Transient(text) => Field(end.job, "poll_error") == Text(text)
            case _ => false
  {
    assert "poll_error"[0] == 'p' && "state"[0] == 's' && "job_id"[0] == 'j';
  }
}
