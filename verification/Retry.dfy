/** The retry and backoff loop that exists three times: sender/erp_api_sender.go, loader/http_source_reader.go
    and extractor/client.go. Times are in milliseconds; the remote side is an oracle that answers attempt i with
    `answers(i)`. Each method also returns what it did on the way: how many attempts it began and how long
    it slept between them. */
module Retry {
  import opened Basics
  import SendLifecycle

  const DEFAULT_RETRY_MAX: int := 3
  const DEFAULT_CAP: int := 30_000
  const SENDER_INITIAL: int := 200
  const READER_INITIAL: int := 200
  const CLIENT_INITIAL: int := 100

  /** The number of retries after the first attempt: a limit that is not positive means the default. */
  function RetryMax(configured: int): (n: nat)
    ensures n >= 1
  {
    if configured <= 0 then DEFAULT_RETRY_MAX else configured
  }

  function Cap(configured: int): (c: int)
    ensures c > 0
  {
    if configured <= 0 then DEFAULT_CAP else configured
  }

  function Pow2(n: nat): (p: int)
    ensures p >= 1
  {
    if n == 0 then 1 else 2 * Pow2(n - 1)
  }

  /** The pause before retry k + 1: the cap applies to the doubled value, so never to the first pause. */
  function Pause(initial: int, cap: int, k: nat): int {
    if k == 0 then initial else Min(initial * Pow2(k), cap)
  }

  ghost predicate Pauses(initial: int, cap: int, sleeps: seq<int>) {
    forall k | 0 <= k < |sleeps| :: sleeps[k] == Pause(initial, cap, k)
  }

  function Sum(s: seq<int>): int { if s == [] then 0 else Sum(s[..|s| - 1]) + s[|s| - 1] }

  /** Doubling a capped value and capping again is capping the doubled original. */
  lemma NextPause(initial: int, cap: int, k: nat)
    requires 0 < initial && 0 < cap
    ensures Pause(initial, cap, k + 1) == Min(2 * Pause(initial, cap, k), cap)
  {
    assert initial * Pow2(k + 1) == 2 * (initial * Pow2(k));
  }

  /** Every pause is min(initial * 2^k, cap) exactly when the initial pause does not exceed the cap. */
  lemma AllPausesAreCapped(initial: int, cap: int)
    requires 0 < initial && 0 < cap
    ensures (forall k: nat :: Pause(initial, cap, k) == Min(initial * Pow2(k), cap)) <==> initial <= cap
  {
    assert Pause(initial, cap, 0) == initial == initial * Pow2(0);
  }

  /** How many pauses are shorter than the cap. */
  function FullPauses(initial: int, cap: int): (k: nat)
    requires 0 < initial
    ensures initial * Pow2(k) >= cap && (k > 0 ==> initial * Pow2(k - 1) < cap)
    decreases cap - initial
  {
    if initial >= cap then 0
    else
      var rest := FullPauses(2 * initial, cap);
      assert initial * Pow2(rest + 1) == 2 * initial * Pow2(rest);
      assert rest > 0 ==> initial * Pow2(rest) == 2 * initial * Pow2(rest - 1);
      rest + 1
  }

  /** The sum of n pauses, of which the first `full` are shorter than the cap. */
  function ClosedTotal(initial: int, cap: int, n: nat, full: nat): int {
    if n <= full then initial * (Pow2(n) - 1) else initial * (Pow2(full) - 1) + (n - full) * cap
  }

  lemma OneMorePause(initial: int, cap: int, n: nat, full: nat)
    ensures ClosedTotal(initial, cap, n + 1, full)
         == ClosedTotal(initial, cap, n, full) + if n < full then initial * Pow2(n) else cap
  {
    if n < full {
      assert initial * (2 * Pow2(n) - 1) == initial * (Pow2(n) - 1) + initial * Pow2(n);
    } else {
      assert (n + 1 - full) * cap == (n - full) * cap + cap;
    }
  }

  /** The total pause in closed form. */
  lemma {:induction false} TotalPause(initial: int, cap: int, sleeps: seq<int>)
    requires 0 < initial <= cap
    requires Pauses(initial, cap, sleeps)
    ensures Sum(sleeps) == ClosedTotal(initial, cap, |sleeps|, FullPauses(initial, cap))
  {
    var full := FullPauses(initial, cap);
    if sleeps == [] {
      assert initial * (Pow2(0) - 1) == 0;
    } else {
      var k := |sleeps| - 1;
      TotalPause(initial, cap, sleeps[..k]);
      hide Pow2, ClosedTotal;
      PauseIsFullOrCap(initial, cap, k, full);
      OneMorePause(initial, cap, k, full);
    }
  }

  lemma PauseIsFullOrCap(initial: int, cap: int, k: nat, full: nat)
    requires 0 < initial <= cap
    requires initial * Pow2(full) >= cap && (full > 0 ==> initial * Pow2(full - 1) < cap)
    ensures Pause(initial, cap, k) == if k < full then initial * Pow2(k) else cap
  {
    if k < full {
      PowersGrow(k, full - 1);
      MultiplyKeepsOrder(initial, Pow2(k), Pow2(full - 1));
    } else {
      PowersGrow(full, k);
      MultiplyKeepsOrder(initial, Pow2(full), Pow2(k));
    }
  }

  lemma MultiplyKeepsOrder(c: int, a: int, b: int)
    requires c > 0 && a <= b
    ensures c * a <= c * b
  {}

  lemma {:induction false} PowersGrow(a: nat, b: nat)
    requires a <= b
    ensures Pow2(a) <= Pow2(b)
  {
    if a < b {
      PowersGrow(a, b - 1);
    }
  }

  /** With the defaults of the sender, three retries sleep 1.4 seconds, and every later pause than the eighth
      is the cap. */
  lemma SenderDefaults(sleeps: seq<int>)
    requires Pauses(SENDER_INITIAL, DEFAULT_CAP, sleeps)
    ensures |sleeps| == RetryMax(0) ==> Sum(sleeps) == 1400
    ensures |sleeps| > 8 ==> Sum(sleeps) == 51_000 + (|sleeps| - 8) * DEFAULT_CAP
  {
    assert FullPauses(12_800, DEFAULT_CAP) == 2;
    assert FullPauses(3200, DEFAULT_CAP) == 4;
    assert FullPauses(800, DEFAULT_CAP) == 6;
    assert FullPauses(SENDER_INITIAL, DEFAULT_CAP) == 8;
    assert Pow2(3) == 8;
    assert Pow2(8) == 8 * Pow2(5) == 8 * (4 * Pow2(3)) == 256;
    TotalPause(SENDER_INITIAL, DEFAULT_CAP, sleeps);
  }

  /** What a loop with `max` retries begins: attempts that ask for another one, and a last one that
      does not or that is number max + 1. */
  ghost predicate Tried<A>(retries: A -> bool, answers: nat -> A, max: nat, attempts: nat) {
    && 1 <= attempts <= max + 1
    && (forall i: nat | i < attempts - 1 :: retries(answers(i)))
    && (attempts == max + 1 || !retries(answers(attempts - 1)))
  }

  /** The first pause is the initial one; every later pause doubles the one before, up to the cap. */
  ghost predicate Doubling(initial: int, cap: int, sleeps: seq<int>) {
    forall k | 0 <= k < |sleeps| ::
      sleeps[k] == if k == 0 then initial else if 2 * sleeps[k - 1] <= cap then 2 * sleeps[k - 1] else cap
  }

  lemma PausesDouble(initial: int, cap: int, sleeps: seq<int>)
    requires 0 < initial && 0 < cap && Pauses(initial, cap, sleeps)
    ensures Doubling(initial, cap, sleeps)
  {
    hide Pause;
    forall k | 1 <= k < |sleeps|
      ensures sleeps[k] == Min(2 * sleeps[k - 1], cap)
    {
      NextPause(initial, cap, k - 1);
    }
    FirstPause(initial, cap);
  }

  lemma FirstPause(initial: int, cap: int)
    ensures Pause(initial, cap, 0) == initial
  {
  }

  /** A loop that retries on less never tries more often. */
  lemma NarrowerTriesLess<A(!new)>(narrow: A -> bool, wide: A -> bool, answers: nat -> A, max: nat, m: nat, n: nat)
    requires forall a | narrow(a) :: wide(a)
    requires Tried(narrow, answers, max, m) && Tried(wide, answers, max, n)
    ensures m <= n
    ensures m < n <==> wide(answers(m - 1)) && !narrow(answers(m - 1)) && m <= max
  {
    forall i: nat | i < m - 1
      ensures wide(answers(i))
    {
      assert narrow(answers(i));
    }
  }

  // Reading side.

  /** What one GET comes back with; `body` is None when it does not decode. */
  datatype Reply<T> = Canceled | NetworkDown | Status(code: int, body: Option<T>)

  datatype Fault = BadRequest | CanceledByCaller | Refused(code: int) | Undecodable | Exhausted | NoToken

  /** doRequest retries on network errors, 429 and every 5xx. */
  ghost predicate ReaderRetries<T>(a: Reply<T>) {
    a.NetworkDown? || (a.Status? && (a.code >= 500 || a.code == 429))
  }

  /** Client.Do does the same, except for 501: the entity is not exported yet. */
  ghost predicate ClientRetries<T>(a: Reply<T>) {
    a.NetworkDown? || (a.Status? && ((a.code >= 500 && a.code != 501) || a.code == 429))
  }

  /** One page request of the loader's source reader. */
  method DoRequest<T>(retryMax: int, backoffCap: int, buildable: bool, answers: nat -> Reply<T>)
    returns (r: Result<T, Fault>, attempts: nat, sleeps: seq<int>)
    ensures !buildable ==> r == Err(BadRequest) && attempts == 0 && sleeps == []
    ensures buildable ==> Tried(a => ReaderRetries(a), answers, RetryMax(retryMax), attempts)
    ensures buildable ==> |sleeps| == attempts - 1 && Pauses(READER_INITIAL, Cap(backoffCap), sleeps)
    // Another attempt begins behind a network error, a 429 or any 5xx, as long as there are retries left.
    ensures buildable ==>
              && 1 <= attempts
              && forall i: nat | i < attempts ::
                   i + 1 < attempts <==>
                   i < (if retryMax <= 0 then 3 else retryMax)
                   && (answers(i).NetworkDown?
                       || (answers(i).Status? && (answers(i).code == 429 || answers(i).code >= 500)))
    ensures Doubling(200, if backoffCap <= 0 then 30_000 else backoffCap, sleeps)
    ensures buildable ==>
              var last := answers(attempts - 1);
              && (r.Ok? <==> last.Status? && last.code < 400 && last.body.Some?)
              && (r.Ok? ==> Some(r.value) == last.body)
              && (r == Err(Undecodable) <==> last.Status? && last.code < 400 && last.body.None?)
              && (r == Err(CanceledByCaller) <==> last.Canceled?)
              && (r == Err(Exhausted) <==> last.NetworkDown? || (last.Status? && (last.code == 429 || last.code >= 500)))
              && (forall c :: r == Err(Refused(c)) <==> last.Status? && last.code == c && 400 <= c < 500 && c != 429)
  {
    sleeps, attempts := [], 0;
    if !buildable {
      return Err(BadRequest), attempts, sleeps;
    }
    var max, cap := RetryMax(retryMax), Cap(backoffCap);
    var backoff := READER_INITIAL;
    while attempts <= max
      invariant attempts <= max + 1
      invariant forall i: nat | i < attempts :: ReaderRetries(answers(i))
      invariant |sleeps| == Max(attempts - 1, 0) && Pauses(READER_INITIAL, cap, sleeps)
      invariant Doubling(READER_INITIAL, cap, sleeps)
      invariant backoff == Pause(READER_INITIAL, cap, |sleeps|)
    {
      if attempts > 0 {
        sleeps := sleeps + [backoff];
        NextPause(READER_INITIAL, cap, |sleeps| - 1);
        PausesDouble(READER_INITIAL, cap, sleeps);
        backoff := Min(backoff * 2, cap);
      }
      var answer := answers(attempts);
      attempts := attempts + 1;
      match answer {
        case Canceled => return Err(CanceledByCaller), attempts, sleeps;
        case NetworkDown =>
        case Status(code, body) =>
          if code < 500 && code != 429 {
            if code >= 400 {
              return Err(Refused(code)), attempts, sleeps;
            }
            return if body.Some? then Ok(body.value) else Err(Undecodable), attempts, sleeps;
          }
      }
    }
    r := Err(Exhausted);
  }

  /** One request of the extractor: any answer it does not retry on is the caller's business. */
  method Do<T>(retryMax: int, backoffCap: int, hasToken: bool, answers: nat -> Reply<T>)
    returns (r: Result<Reply<T>, Fault>, attempts: nat, sleeps: seq<int>)
    ensures !hasToken ==> r == Err(NoToken) && attempts == 0 && sleeps == []
    ensures hasToken ==> Tried(a => ClientRetries(a), answers, RetryMax(retryMax), attempts)
    ensures hasToken ==> |sleeps| == attempts - 1 && Pauses(CLIENT_INITIAL, Cap(backoffCap), sleeps)
    // The same, except that a 501 is an answer like any other.
    ensures hasToken ==>
              && 1 <= attempts
              && forall i: nat | i < attempts ::
                   i + 1 < attempts <==>
                   i < (if retryMax <= 0 then 3 else retryMax)
                   && (answers(i).NetworkDown?
                       || (answers(i).Status?
                           && (answers(i).code == 429 || (answers(i).code >= 500 && answers(i).code != 501))))
    ensures Doubling(100, if backoffCap <= 0 then 30_000 else backoffCap, sleeps)
    ensures hasToken ==>
              var last := answers(attempts - 1);
              && (r == Err(CanceledByCaller) <==> last.Canceled?)
              && (r == Ok(last) <==> last.Status? && (last.code < 500 || last.code == 501) && last.code != 429)
              && (r.Err? ==> r == Err(CanceledByCaller) || r == Err(Exhausted)) && (r.Ok? ==> r.value == last)
  {
    sleeps, attempts := [], 0;
    if !hasToken {
      return Err(NoToken), attempts, sleeps;
    }
    var max, cap := RetryMax(retryMax), Cap(backoffCap);
    var backoff := CLIENT_INITIAL;
    while attempts <= max
      invariant attempts <= max + 1
      invariant forall i: nat | i < attempts :: ClientRetries(answers(i))
      invariant |sleeps| == Max(attempts - 1, 0) && Pauses(CLIENT_INITIAL, cap, sleeps)
      invariant Doubling(CLIENT_INITIAL, cap, sleeps)
      invariant backoff == Pause(CLIENT_INITIAL, cap, |sleeps|)
    {
      if attempts > 0 {
        sleeps := sleeps + [backoff];
        NextPause(CLIENT_INITIAL, cap, |sleeps| - 1);
        PausesDouble(CLIENT_INITIAL, cap, sleeps);
        backoff := Min(backoff * 2, cap);
      }
      var answer := answers(attempts);
      attempts := attempts + 1;
      if answer.Canceled? {
        return Err(CanceledByCaller), attempts, sleeps;
      }
      if answer.Status? && !((answer.code >= 500 && answer.code != 501) || answer.code == 429) {
        return Ok(answer), attempts, sleeps;
      }
    }
    r := Err(Exhausted);
  }

  /** Against the same answers and limits the extractor stops no later than the loader's reader, and earlier
      exactly when the answer it stops at is a 501 that the reader would have retried. */
  lemma OnlyNotImplementedDiffers<T(!new)>(answers: nat -> Reply<T>, max: nat, m: nat, n: nat)
    requires Tried(a => ClientRetries(a), answers, max, m)
    requires Tried(a => ReaderRetries(a), answers, max, n)
    ensures m <= n
    ensures m < n <==> m <= max && answers(m - 1).Status? && answers(m - 1).code == 501
  {
    NarrowerTriesLess(a => ClientRetries(a), a => ReaderRetries(a), answers, max, m, n);
  }

  // Sending side.

  /** What becomes of one POST: `ref` is the external reference found in the body. */
  datatype Answer = NoRequest | NoAuth | Unreachable | Response(code: int, ref: Option<string>)

  ghost predicate SenderRetries(a: Answer) {
    a.NoRequest? || a.Unreachable? || (a.Response? && (a.code == 429 || a.code >= 500))
  }

  ghost predicate Accepted(a: Answer) { a.Response? && 200 <= a.code < 300 }

  /** The status code that the attempt row keeps: the one of the last answer that had one. */
  function LastCode(answers: nat -> Answer, attempts: nat): Option<int> {
    if attempts == 0 then None
    else if answers(attempts - 1).Response? then Some(answers(attempts - 1).code)
    else LastCode(answers, attempts - 1)
  }

  function TrimSlashes(s: string): string {
    if s != "" && s[|s| - 1] == '/' then TrimSlashes(s[..|s| - 1]) else s
  }

  /** The sender of the ERP channel. `status` is what the router reads from the result. */
  method Send(formats: bool, endpointUrl: string, retryMax: int, answers: nat -> Answer)
    returns (reply: SendLifecycle.Reply, code: Option<int>, ok: bool, attempts: nat, sleeps: seq<int>)
    ensures var tried := formats && TrimSlashes(endpointUrl) != "";
            && (!tried ==> attempts == 0 && sleeps == [] && !ok && reply.retries == 0)
            && (tried ==> Tried(a => SenderRetries(a), answers, RetryMax(retryMax), attempts))
            && (tried ==> |sleeps| == reply.retries == attempts - 1 && Pauses(SENDER_INITIAL, DEFAULT_CAP, sleeps))
            && (ok <==> tried && Accepted(answers(attempts - 1)))
    // Another attempt begins behind a failed request, a network error, a 429 or any 5xx, as long as there are retries
    // left; the channel has the order when the last answer is a 2xx.
    ensures (attempts == 0 <==> !formats || forall i | 0 <= i < |endpointUrl| :: endpointUrl[i] == '/')
    ensures forall i: nat | i < attempts ::
              i + 1 < attempts <==>
              i < (if retryMax <= 0 then 3 else retryMax)
              && (answers(i).NoRequest? || answers(i).Unreachable?
                  || (answers(i).Response? && (answers(i).code == 429 || answers(i).code >= 500)))
    ensures Doubling(200, 30_000, sleeps)
    ensures ok <==> attempts > 0 && answers(attempts - 1).Response? && 200 <= answers(attempts - 1).code <= 299
    ensures reply.status == Some(if ok then SendLifecycle.Success else SendLifecycle.Failed)
    ensures reply.ref == if ok then answers(attempts - 1).ref else None
    ensures code == LastCode(answers, attempts)
  {
    reply, code, ok, attempts, sleeps := SendLifecycle.Reply(None, None, 0), None, false, 0, [];
    OnlySlashes(endpointUrl);
    if !formats {
      reply := reply.(status := Some(SendLifecycle.Failed));
      return;
    }
    var max := RetryMax(retryMax);
    if TrimSlashes(endpointUrl) == "" {
      reply := reply.(status := Some(SendLifecycle.Failed));
      return;
    }
    var backoff := SENDER_INITIAL;
    while attempts <= max
      invariant attempts <= max + 1 && !ok
      invariant forall i: nat | i < attempts :: SenderRetries(answers(i))
      invariant |sleeps| == reply.retries == Max(attempts - 1, 0) && Pauses(SENDER_INITIAL, DEFAULT_CAP, sleeps)
      invariant Doubling(SENDER_INITIAL, DEFAULT_CAP, sleeps)
      invariant backoff == Pause(SENDER_INITIAL, DEFAULT_CAP, |sleeps|)
      invariant reply.ref == None && code == LastCode(answers, attempts)
    {
      if attempts > 0 {
        sleeps := sleeps + [backoff];
        NextPause(SENDER_INITIAL, DEFAULT_CAP, |sleeps| - 1);
        PausesDouble(SENDER_INITIAL, DEFAULT_CAP, sleeps);
        backoff := Min(backoff * 2, DEFAULT_CAP);
        reply := reply.(retries := attempts);
      }
      var answer := answers(attempts);
      attempts := attempts + 1;
      match answer {
        case NoRequest =>
        case NoAuth =>
          reply := reply.(status := Some(SendLifecycle.Failed));
          return;
        case Unreachable =>
        case Response(c, ref) =>
          code := Some(c);
          if 200 <= c < 300 {
            reply, ok := reply.(status := Some(SendLifecycle.Success), ref := ref), true;
            return;
          } else if c == 429 || c >= 500 {
            reply := reply.(status := Some(SendLifecycle.Pending));
          } else {
            reply := reply.(status := Some(SendLifecycle.Failed));
            return;
          }
      }
    }
    reply := reply.(status := Some(SendLifecycle.Failed));
  }

  /** The endpoint that is refused is the one made of slashes only. */
  lemma {:induction false} OnlySlashes(s: string)
    ensures TrimSlashes(s) == "" <==> forall i | 0 <= i < |s| :: s[i] == '/'
  {
    if s != "" && s[|s| - 1] == '/' {
      OnlySlashes(s[..|s| - 1]);
    }
  }

  /** The code on a failed attempt row can be older than the failure: it is the last one received, if any was. */
  lemma {:induction false} CodeIsTheLastReceived(answers: nat -> Answer, attempts: nat)
    ensures LastCode(answers, attempts).None? <==> forall i: nat | i < attempts :: !answers(i).Response?
    ensures LastCode(answers, attempts).Some? ==>
              exists i: nat | i < attempts ::
                && answers(i).Response? && LastCode(answers, attempts) == Some(answers(i).code)
                && forall j: nat | i < j < attempts :: !answers(j).Response?
  {
    if attempts > 0 && !answers(attempts - 1).Response? {
      CodeIsTheLastReceived(answers, attempts - 1);
    }
  }
}
