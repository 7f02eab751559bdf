/** The fixed-window, per-client rate limiter of the security middleware:
    a process-wide map from client identifier to the start of its current
    window and the number of requests counted in it. Every request first
    sweeps the records whose window ended more than a window ago, then
    counts itself against its client's record. */
module RateLimit {

  /** Window length in milliseconds. */
  const Window := 60000
  /** Requests admitted per client and window. */
  const MaxRequests := 10

  datatype Record = Record(firstRequest: int, requests: int)

  datatype Decision = Admitted | Limited(retryAfter: int)

  /** The state after one request and what the client is told. */
  datatype Step = Step(store: map<string, Record>, decision: Decision)

  /** The client identifier: the forwarded-for header, else the connection's
      remote address, else the literal "unknown" (empty strings are falsy). */
  function ClientId(forwardedFor: string, remoteAddress: string): (id: string)
    ensures id != ""
    ensures forwardedFor != "" ==> id == forwardedFor
    ensures forwardedFor == "" && remoteAddress != "" ==> id == remoteAddress
  {
    if forwardedFor != "" then forwardedFor
    else if remoteAddress != "" then remoteAddress
    else "unknown"
  }

  /** The sweep removes a record once its window began strictly more than a
      window before now. */
  predicate Stale(r: Record, now: int) {
    now - r.firstRequest > Window
  }

  /** The store once the sweep has run. */
  function Swept(store: map<string, Record>, now: int): (m: map<string, Record>)
    ensures m.Keys <= store.Keys
    ensures forall k | k in store :: k in m <==> !Stale(store[k], now)
    ensures forall k | k in m :: m[k] == store[k]
  {
    map k | k in store && !Stale(store[k], now) :: store[k]
  }

  /** `Math.ceil(ms / 1000)` for a positive number of milliseconds. */
  function CeilSeconds(ms: int): (s: int)
    requires ms > 0
    ensures s >= 1
    ensures (s - 1) * 1000 < ms <= s * 1000
  {
    (ms + 999) / 1000
  }

  /** The check-and-count half of one request, on an already swept store.
      A client without a record starts `{firstRequest: now, requests: 0}`.
      Inside the window the count is bumped in place, so a refused request
      still raises the stored count; outside it the record restarts at now. */
  function Count(swept: map<string, Record>, ip: string, now: int): (r: Step)
    ensures forall k | k != ip :: (k in r.store <==> k in swept) && (k in swept ==> r.store[k] == swept[k])
    ensures ip !in swept ==> r == Step(swept[ip := Record(now, 1)], Admitted)
    ensures ip in swept && now - swept[ip].firstRequest >= Window ==>
              r == Step(swept[ip := Record(now, 1)], Admitted)
    ensures ip in swept && now - swept[ip].firstRequest < Window ==>
              && ip in r.store
              && r.store[ip] == Record(swept[ip].firstRequest, swept[ip].requests + 1)
              && (r.decision.Admitted? <==> swept[ip].requests + 1 <= MaxRequests)
    ensures r.decision.Limited? ==>
              && ip in swept
              && now - swept[ip].firstRequest < Window
              && r.decision.retryAfter == CeilSeconds(Window - (now - swept[ip].firstRequest))
              && 1 <= r.decision.retryAfter
              && (swept[ip].firstRequest <= now ==> r.decision.retryAfter <= Window / 1000)
  {
    var rec := if ip in swept then swept[ip] else Record(now, 0);
    if now - rec.firstRequest < Window then
      var bumped := rec.(requests := rec.requests + 1);
      if bumped.requests > MaxRequests then
        Step(if ip in swept then swept[ip := bumped] else swept,
             Limited(CeilSeconds(Window - (now - rec.firstRequest))))
      else
        Step(swept[ip := bumped], Admitted)
    else
      Step(swept[ip := Record(now, 1)], Admitted)
  }

  /** Every stored record has counted at least one request. */
  predicate Counted(store: map<string, Record>) {
    forall k | k in store :: store[k].requests >= 1
  }

  /** One whole request: sweep, then count. */
  function RequestStep(store: map<string, Record>, ip: string, now: int): (r: Step)
    ensures forall k | k != ip && k in store && !Stale(store[k], now) :: k in r.store && r.store[k] == store[k]
    ensures forall k | k != ip && k in store && Stale(store[k], now) :: k !in r.store
    ensures forall k | k != ip && k !in store :: k !in r.store
    ensures ip in r.store
    ensures Counted(store) ==> Counted(r.store)
    ensures r.decision.Admitted? ==> r.store[ip].requests <= MaxRequests
    ensures r.decision.Limited? ==> r.store[ip].requests > MaxRequests
  {
    Count(Swept(store, now), ip, now)
  }

  /** The decisions a client receives for requests made at the given times,
      and the store after them. */
  function Run(store: map<string, Record>, ip: string, times: seq<int>): (r: (map<string, Record>, seq<Decision>))
    ensures |r.1| == |times|
    decreases |times|
  {
    if |times| == 0 then (store, [])
    else
      var step := RequestStep(store, ip, times[0]);
      var rest := Run(step.store, ip, times[1..]);
      (rest.0, [step.decision] + rest.1)
  }

  /** Requests that all fall inside the window opened at `start`, from a
      client holding `count` requests of that window: the k-th is admitted
      exactly when it is among the first `MaxRequests` of the window, and the
      stored count goes up by one per request, refused or not. */
  lemma {:induction false} RunInsideWindow(store: map<string, Record>, ip: string, start: int, count: int, times: seq<int>)
    requires ip in store && store[ip] == Record(start, count)
    requires forall k | 0 <= k < |times| :: times[k] - start < Window
    ensures ip in Run(store, ip, times).0
    ensures Run(store, ip, times).0[ip] == Record(start, count + |times|)
    ensures forall k | 0 <= k < |times| :: Run(store, ip, times).1[k].Admitted? <==> count + k + 1 <= MaxRequests
    decreases |times|
  {
    if |times| > 0 {
      var step := RequestStep(store, ip, times[0]);
      assert !Stale(store[ip], times[0]);
      assert step.store[ip] == Record(start, count + 1);
      RunInsideWindow(step.store, ip, start, count + 1, times[1..]);
      var r := Run(store, ip, times);
      forall k | 0 <= k < |times|
        ensures r.1[k].Admitted? <==> count + k + 1 <= MaxRequests
      {
        if k > 0 {
          assert r.1[k] == Run(step.store, ip, times[1..]).1[k - 1];
        }
      }
    }
  }

  /** A client without a record that sends requests inside one window from
      its first one is admitted for the first ten and refused from the
      eleventh on. */
  lemma TenPerWindow(store: map<string, Record>, ip: string, times: seq<int>)
    requires ip !in store && |times| >= 1
    requires forall k | 0 <= k < |times| :: times[k] - times[0] < Window
    ensures forall k | 0 <= k < |times| :: Run(store, ip, times).1[k].Admitted? <==> k < MaxRequests
  {
    var first := RequestStep(store, ip, times[0]);
    assert first.store[ip] == Record(times[0], 1);
    RunInsideWindow(first.store, ip, times[0], 1, times[1..]);
    var r := Run(store, ip, times);
    forall k | 0 <= k < |times|
      ensures r.1[k].Admitted? <==> k < MaxRequests
    {
      if k > 0 {
        assert r.1[k] == Run(first.store, ip, times[1..]).1[k - 1];
      }
    }
  }

  /** The in-memory store; `Request` runs the sweep loop and the check. */
  class RateLimiter {
    var store: map<string, Record>

    constructor ()
      ensures store == map[]
    {
      store := map[];
    }

    ghost predicate Valid()
      reads this
    {
      Counted(store)
    }

    /** No window in the store starts after `now`: what a clock that never
        goes backwards keeps true. */
    ghost predicate NotAfter(now: int)
      reads this
    {
      forall k | k in store :: store[k].firstRequest <= now
    }

    /** The `for ... of` loop that deletes stale entries one key at a time. */
    method Sweep(now: int)
      modifies this
      ensures store == Swept(old(store), now)
    {
      var pending := store.Keys;
      while pending != {}
        invariant pending <= old(store).Keys
        invariant store == map k | k in old(store) && (k in pending || !Stale(old(store)[k], now)) :: old(store)[k]
        decreases pending
      {
        var key :| key in pending;
        if now - store[key].firstRequest > Window {
          store := store - {key};
        }
        pending := pending - {key};
      }
    }

    method Request(ip: string, now: int) returns (d: Decision)
      requires Valid()
      modifies this
      ensures Valid()
      ensures Step(store, d) == RequestStep(old(store), ip, now)
      ensures old(NotAfter(now)) ==> NotAfter(now)
      ensures old(NotAfter(now)) && d.Limited? ==> 1 <= d.retryAfter <= Window / 1000
    {
      Sweep(now);
      var clientData := if ip in store then store[ip] else Record(now, 0);
      if now - clientData.firstRequest < Window {
        clientData := clientData.(requests := clientData.requests + 1);
        if clientData.requests > MaxRequests {
          if ip in store {
            store := store[ip := clientData];
          }
          d := Limited(CeilSeconds(Window - (now - clientData.firstRequest)));
          return;
        }
      } else {
        clientData := Record(now, 1);
      }
      store := store[ip := clientData];
      d := Admitted;
    }
  }
}
