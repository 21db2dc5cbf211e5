/**
 Fetching one page of the subdomain listing: bounded retries with exponential back-off under a deadline.
 */
module PageFetch {
  import opened Outcomes

  const PAGE_SIZE: nat := 40
  const MAX_RESPONSE_BYTES: nat := 2 * 1024 * 1024

  datatype Code = Unreachable | RateLimited | AuthFailed | Failed | TooLarge

  /** What a page holds: one entry per record; `None` for a record without a usable host name. */
  datatype Page = Page(entries: seq<Option<string>>)

  /** The call raised after so many bytes, or a reply came with what its body parses to. */
  datatype Response =
    | Raised(bytes: nat)
    | Reply(status: int, payload: Option<Page>, captcha: bool)

  datatype Verdict = Done(page: Page) | Fatal(code: Code) | Again(code: Code)

  /** What one response settles. */
  function Settle(response: Response): Verdict {
    match response
    case Raised(bytes) =>
      if bytes > MAX_RESPONSE_BYTES then Fatal(TooLarge) else Again(Unreachable)
    case Reply(status, payload, captcha) =>
      if status == 200 then
        if payload.Some? && |payload.value.entries| <= PAGE_SIZE then Done(payload.value) else Fatal(Failed)
      else if status == 404 then Done(Page([]))
      else if (status == 403 || status == 429) && captcha then Fatal(AuthFailed)
      else
        var code :=
          if status == 429 then RateLimited else if status == 401 || status == 403 then AuthFailed else Failed;
        if status != 403 && status != 429 && status < 500 then Fatal(code) else Again(code)
  }

  datatype Pause = Pause(at: real, delay: real)

  /** One request, made at a time and with a timeout, and the sleep after it if there was one. */
  datatype Attempt = Attempt(at: real, timeout: real, pause: Option<Pause>)

  function Pow2(n: nat): (p: nat)
    ensures p >= 1
  {
    if n == 0 then 1 else 2 * Pow2(n - 1)
  }

  function TotalSleep(log: seq<Attempt>): real {
    if log == [] then 0.0
    else
      var last := log[|log| - 1];
      TotalSleep(log[..|log| - 1]) + (if last.pause.Some? then last.pause.value.delay else 0.0)
  }

  /** The back-off before attempt `n + 1`: it doubles each time. */
  function Delay(baseDelay: real, n: nat): real {
    if n == 0 then baseDelay else 2.0 * Delay(baseDelay, n - 1)
  }

  /** The first `n` back-offs together. */
  function Slept(baseDelay: real, n: nat): real {
    if n == 0 then 0.0 else Slept(baseDelay, n - 1) + Delay(baseDelay, n - 1)
  }

  /** Every attempt but the last is followed by its own back-off, and the last one allowed by none. */
  predicate BacksOff(log: seq<Attempt>, baseDelay: real, retries: nat) {
    && |log| <= retries
    && (forall i :: 0 <= i < |log| - 1 ==> log[i].pause.Some?)
    && (0 < |log| == retries ==> log[|log| - 1].pause.None?)
    && (forall i :: 0 <= i < |log| && log[i].pause.Some? ==> log[i].pause.value.delay == Delay(baseDelay, i))
  }

  /** No request may outlast the deadline, and no sleep starts that would reach it. */
  predicate MeetsDeadline(attempt: Attempt, deadline: Option<real>, requestTimeout: real) {
    && attempt.timeout <= requestTimeout
    && (deadline.Some? ==> attempt.at + attempt.timeout <= deadline.value)
    && (deadline.Some? && attempt.pause.Some? ==> attempt.pause.value.at + attempt.pause.value.delay < deadline.value)
  }

  /** What is left for a request that is about to be made at this time. */
  function Remaining(deadline: Option<real>, requestTimeout: real, at: real): real {
    if deadline.Some? then deadline.value - at else requestTimeout
  }

  /** Request `i` takes two readings of the clock: one before it, for its timeout, and one for the sleep after it. */
  predicate IsTimed(attempt: Attempt, i: nat, deadline: Option<real>, requestTimeout: real, now: nat -> real) {
    var remaining := Remaining(deadline, requestTimeout, now(2 * i));
    && attempt.at == now(2 * i)
    && attempt.timeout == (if requestTimeout < remaining then requestTimeout else remaining)
    && (attempt.pause.Some? ==> attempt.pause.value.at == now(2 * i + 1))
  }

  /** The clock left no time: none for the sleep after the last request or, that one slept, none for another request. */
  predicate IsOutOfTime(log: seq<Attempt>, deadline: Option<real>, baseDelay: real, requestTimeout: real,
                        now: nat -> real) {
    var n := |log|;
    if n > 0 && log[n - 1].pause.None? then
      deadline.Some? && Delay(baseDelay, n - 1) >= deadline.value - now(2 * n - 1)
    else
      Remaining(deadline, requestTimeout, now(2 * n)) <= 0.0
  }

  /** The last answer settles the fetch. */
  predicate IsFinal(respond: nat -> Response, n: nat) {
    n > 0 && !Settle(respond(n - 1)).Again?
  }

  /** The result that `n` requests lead to. */
  predicate Yields(respond: nat -> Response, n: nat, r: Outcome<Page, Code>) {
    && (forall i :: 0 <= i < n - 1 ==> Settle(respond(i)).Again?)
    && (n == 0 ==> r == Err(Unreachable))
    && (n > 0 ==> match Settle(respond(n - 1))
                  case Done(page) => r == Ok(page)
                  case Fatal(code) => r == Err(code)
                  case Again(code) => r == Err(code))
  }

  /**
   One fetch. `respond` answers the requests in order and `now` the readings of the clock in order. It stops before
   it has used up its tries only on a final answer or when a reading of the clock leaves no time.
   */
  method FetchPage(deadline: Option<real>, retries: nat, baseDelay: real, requestTimeout: real,
                   respond: nat -> Response, now: nat -> real) returns (r: Outcome<Page, Code>, log: seq<Attempt>)
    requires 0.0 <= baseDelay
    ensures Yields(respond, |log|, r)
    ensures |log| < retries ==> IsFinal(respond, |log|) || IsOutOfTime(log, deadline, baseDelay, requestTimeout, now)
    ensures forall i :: 0 <= i < |log| ==> IsTimed(log[i], i, deadline, requestTimeout, now)
    ensures BacksOff(log, baseDelay, retries)
    ensures forall i :: 0 <= i < |log| ==> MeetsDeadline(log[i], deadline, requestTimeout)
  {
    log := [];
    var last := Unreachable;
    var reading := 0;
    for attempt := 0 to retries
      invariant |log| == attempt && (attempt == retries ==> attempt == 0) && reading == 2 * attempt
      invariant forall i :: 0 <= i < |log| ==> IsTimed(log[i], i, deadline, requestTimeout, now)
      invariant BacksOff(log, baseDelay, retries) && (forall i :: 0 <= i < |log| ==> log[i].pause.Some?)
      invariant forall i :: 0 <= i < |log| ==> MeetsDeadline(log[i], deadline, requestTimeout)
      invariant forall i :: 0 <= i < attempt ==> Settle(respond(i)).Again?
      invariant last == if attempt == 0 then Unreachable else Settle(respond(attempt - 1)).code
    {
      var before := log;
      var at := now(reading);
      var remaining := Remaining(deadline, requestTimeout, at);
      if remaining <= 0.0 {
        return Err(last), log;
      }
      var tried := Attempt(at, if requestTimeout < remaining then requestTimeout else remaining, None);
      log := before + [tried];
      match Settle(respond(attempt)) {
        case Done(page) => return Ok(page), log;
        case Fatal(code) => return Err(code), log;
        case Again(code) => last := code;
      }
      var delay := Delay(baseDelay, attempt);
      at := now(reading + 1);
      reading := reading + 2;
      if attempt + 1 == retries || (deadline.Some? && delay >= deadline.value - at) {
        return Err(last), log;
      }
      log := before + [tried.(pause := Some(Pause(at, delay)))];
    }
    r := Err(last);
  }

  /** Whatever the responses and the clock, all sleeps of a fetch together stay below one power of two. */
  lemma TotalSleepIsBounded(log: seq<Attempt>, baseDelay: real, retries: nat)
    requires 0.0 <= baseDelay && 0 < retries && BacksOff(log, baseDelay, retries)
    ensures TotalSleep(log) <= baseDelay * (Pow2(retries - 1) - 1) as real
  {
    if log == [] {
      SleepIsBounded(baseDelay, 0, retries - 1);
    } else {
      var last := |log| - 1;
      SleepOfPauses(log[..last], baseDelay);
      var n := if log[last].pause.Some? then |log| else last;
      SleepIsBounded(baseDelay, n, retries - 1);
    }
  }

  lemma {:induction false} SleepOfPauses(log: seq<Attempt>, baseDelay: real)
    requires forall i :: 0 <= i < |log| ==> log[i].pause.Some? && log[i].pause.value.delay == Delay(baseDelay, i)
    ensures TotalSleep(log) == Slept(baseDelay, |log|)
  {
    if log != [] {
      SleepOfPauses(log[..|log| - 1], baseDelay);
    }
  }

  /** A fetched page is never larger than the page size. */
  lemma FetchedPageFits(respond: nat -> Response, n: nat, r: Outcome<Page, Code>)
    requires Yields(respond, n, r) && r.Ok?
    ensures |r.value.entries| <= PAGE_SIZE
  {
    assert n > 0;
  }

  /** A response after which another request is made while tries and time are left. */
  predicate IsTemporary(response: Response) {
    if response.Raised? then response.bytes <= 2_097_152
    else response.status >= 500 || (response.status in {403, 429} && !response.captcha)
  }

  /** A reply with a list of at most forty records. */
  predicate HoldsPage(response: Response) {
    && response.Reply? && response.status == 200
    && response.payload.Some? && |response.payload.value.entries| <= 40
  }

  /**
   What a fetch that made a request ends with, by its last response alone: every response before it was temporary, it
   ends early only on one that is not, and each result stands for exactly these responses.
   */
  lemma FetchResultMeans(respond: nat -> Response, n: nat, r: Outcome<Page, Code>)
    requires n > 0 && Yields(respond, n, r)
    ensures forall i :: 0 <= i < n - 1 ==> IsTemporary(respond(i))
    ensures IsFinal(respond, n) <==> !IsTemporary(respond(n - 1))
    ensures var last := respond(n - 1);
      && (r.Ok? <==> HoldsPage(last) || (last.Reply? && last.status == 404))
      && (r.Ok? ==> r.value == if last.status == 404 then Page([]) else last.payload.value)
      && (r == Err(Unreachable) <==> last.Raised? && last.bytes <= 2_097_152)
      && (r == Err(TooLarge) <==> last.Raised? && last.bytes > 2_097_152)
      && (r == Err(RateLimited) <==> last.Reply? && last.status == 429 && !last.captcha)
      && (r == Err(AuthFailed) <==>
          last.Reply? && (last.status in {401, 403} || (last.status == 429 && last.captcha)))
      && (r == Err(Failed) <==> last.Reply? && last.status !in {401, 403, 404, 429} && !HoldsPage(last))
  {
  }

  lemma {:induction false} DelayIsPower(baseDelay: real, n: nat)
    ensures Delay(baseDelay, n) == baseDelay * Pow2(n) as real
    ensures Slept(baseDelay, n) == baseDelay * (Pow2(n) - 1) as real
  {
    if n > 0 {
      DelayIsPower(baseDelay, n - 1);
    }
  }

  lemma {:induction false} SleepIsBounded(baseDelay: real, n: nat, most: nat)
    requires 0.0 <= baseDelay && n <= most
    ensures Slept(baseDelay, n) <= baseDelay * (Pow2(most) - 1) as real
    decreases most - n
  {
    if n == most {
      DelayIsPower(baseDelay, n);
    } else {
      SleepIsBounded(baseDelay, n + 1, most);
      DelayIsPositive(baseDelay, n);
    }
  }

  lemma {:induction false} DelayIsPositive(baseDelay: real, n: nat)
    requires 0.0 <= baseDelay
    ensures 0.0 <= Delay(baseDelay, n)
  {
    if n > 0 {
      DelayIsPositive(baseDelay, n - 1);
    }
  }
}
