/**
 * The `middleware` edge function: a per-client sliding-window rate limiter
 * (10 requests per 60 s) over a process-wide map from client key to request
 * timestamps, and the handler that answers 429 (section 4 of RFC 6585) or 200.
 *
 * `Date.now()` is the parameter `now`; the map is passed in and returned.
 */
module RateLimiter {
  import opened Wrappers

  const WindowMs: int := 60 * 1000
  const MaxRequests: nat := 10

  /** Timestamps (ms) of the admitted requests of each client key. */
  type State = map<string, seq<int>>

  const EmptyState: State := map[]

  /** A timestamp still inside the window that ends at `now`. */
  predicate InWindow(t: int, now: int) {
    now - t < WindowMs
  }

  /** `requests.filter(t => now - t < windowMs)`: every in-window timestamp as often as it was stored, no other. */
  function Prune(ts: seq<int>, now: int): (r: seq<int>)
    ensures |r| <= |ts|
    ensures forall t :: t in r <==> t in ts && InWindow(t, now)
    ensures forall t :: multiset(r)[t] == if InWindow(t, now) then multiset(ts)[t] else 0
  {
    if |ts| == 0 then []
    else
      assert ts == [ts[0]] + ts[1..];
      (if InWindow(ts[0], now) then [ts[0]] else []) + Prune(ts[1..], now)
  }

  /** Pruning a concatenation prunes each part and keeps them in order. */
  lemma {:induction false} PruneAppend(a: seq<int>, b: seq<int>, now: int)
    ensures Prune(a + b, now) == Prune(a, now) + Prune(b, now)
  {
    if |a| == 0 {
      assert a + b == b;
    } else {
      assert (a + b)[0] == a[0];
      assert (a + b)[1..] == a[1..] + b;
      PruneAppend(a[1..], b, now);
    }
  }

  /** Pruning keeps a list whose every timestamp is in the window. */
  lemma {:induction false} PruneKeepsRecent(ts: seq<int>, now: int)
    requires forall k :: 0 <= k < |ts| ==> InWindow(ts[k], now)
    ensures Prune(ts, now) == ts
  {
    if |ts| > 0 {
      PruneKeepsRecent(ts[1..], now);
      assert [ts[0]] + ts[1..] == ts;
    }
  }

  /** Pruning empties a list whose every timestamp has left the window. */
  lemma {:induction false} PruneDropsExpired(ts: seq<int>, now: int)
    requires forall k :: 0 <= k < |ts| ==> !InWindow(ts[k], now)
    ensures Prune(ts, now) == []
  {
    if |ts| > 0 {
      PruneDropsExpired(ts[1..], now);
    }
  }

  /** The stored list of a key; a key never seen has the empty list it is given on first use. */
  function Stored(st: State, ip: string): seq<int> {
    if ip in st then st[ip] else []
  }

  /** Every stored list holds at most `MaxRequests` timestamps. */
  ghost predicate Bounded(st: State) {
    forall ip :: ip in st ==> |st[ip]| <= MaxRequests
  }

  /**
   * `isRateLimited(ip)`: true when the key already has `MaxRequests` requests
   * in the window. A limited call stores nothing; an admitted one stores the
   * pruned list followed by `now`.
   */
  function IsRateLimited(st: State, ip: string, now: int): (r: (bool, State))
    ensures r.0 <==> |Prune(Stored(st, ip), now)| >= MaxRequests
    ensures r.0 ==> r.1 == st
    ensures !r.0 ==> r.1 == st[ip := Prune(Stored(st, ip), now) + [now]]
    ensures forall other :: other != ip ==> (other in r.1 <==> other in st)
    ensures forall other :: other != ip && other in st ==> r.1[other] == st[other]
    ensures Bounded(st) ==> Bounded(r.1)
  {
    var valid := Prune(Stored(st, ip), now);
    if |valid| >= MaxRequests then (true, st)
    else (false, st[ip := valid + [now]])
  }

  /** The first call from a key never seen is admitted and creates its entry. */
  lemma FirstCallAdmitted(st: State, ip: string, now: int)
    requires ip !in st
    ensures IsRateLimited(st, ip, now) == (false, st[ip := [now]])
  {
    assert Prune([], now) + [now] == [now];
  }

  /** Once every stored request of a key has left the window, the key is admitted again. */
  lemma AdmittedAfterWindow(st: State, ip: string, now: int)
    requires forall k :: 0 <= k < |Stored(st, ip)| ==> Stored(st, ip)[k] <= now - WindowMs
    ensures IsRateLimited(st, ip, now) == (false, st[ip := [now]])
  {
    PruneDropsExpired(Stored(st, ip), now);
    assert Prune(Stored(st, ip), now) + [now] == [now];
  }

  // ---------------------------------------------------------------------------
  // A burst of calls at one instant

  /** The outcomes (true = limited) of `n` calls from one key at the same instant, and the final state. */
  function Burst(st: State, ip: string, now: int, n: nat): (r: (seq<bool>, State))
    ensures |r.0| == n
    decreases n
  {
    if n == 0 then ([], st)
    else
      var (limited, st1) := IsRateLimited(st, ip, now);
      var (rest, st2) := Burst(st1, ip, now, n - 1);
      ([limited] + rest, st2)
  }

  function Repeat(t: int, k: nat): (r: seq<int>)
    ensures |r| == k && forall j :: 0 <= j < k ==> r[j] == t
  {
    seq(k, _ => t)
  }

  /** One call at `now` from a key holding `k` timestamps equal to `now`: limited at the maximum, otherwise stored. */
  lemma BurstStep(st: State, ip: string, now: int, k: nat)
    requires k <= MaxRequests
    requires Stored(st, ip) == Repeat(now, k)
    ensures k == MaxRequests ==> IsRateLimited(st, ip, now) == (true, st)
    ensures k < MaxRequests ==>
              && !IsRateLimited(st, ip, now).0
              && Stored(IsRateLimited(st, ip, now).1, ip) == Repeat(now, k + 1)
  {
    PruneKeepsRecent(Repeat(now, k), now);
    assert Repeat(now, k) + [now] == Repeat(now, k + 1);
  }

  /**
   * A key holding `k <= MaxRequests` timestamps equal to `now` admits the next
   * `MaxRequests - k` calls at `now` and limits all later ones.
   */
  lemma {:induction false} BurstFrom(st: State, ip: string, now: int, k: nat, n: nat)
    requires k <= MaxRequests
    requires Stored(st, ip) == Repeat(now, k)
    ensures forall j :: 0 <= j < n ==> (Burst(st, ip, now, n).0[j] <==> j >= MaxRequests - k)
    decreases n
  {
    if n > 0 {
      BurstStep(st, ip, now, k);
      var r := IsRateLimited(st, ip, now);
      var rest := Burst(r.1, ip, now, n - 1).0;
      var outcomes := Burst(st, ip, now, n).0;
      assert outcomes == [r.0] + rest;
      var k' := if k == MaxRequests then k else k + 1;
      BurstFrom(r.1, ip, now, k', n - 1);
      forall j | 0 <= j < n
        ensures outcomes[j] <==> j >= MaxRequests - k
      {
        if j > 0 {
          assert outcomes[j] == rest[j - 1];
        }
      }
    }
  }

  /** Fifteen calls at one instant from a fresh key: the first ten are admitted, the last five limited. */
  lemma FifteenAtOnce(st: State, ip: string, now: int)
    requires ip !in st
    ensures forall j :: 0 <= j < 10 ==> !Burst(st, ip, now, 15).0[j]
    ensures forall j :: 10 <= j < 15 ==> Burst(st, ip, now, 15).0[j]
  {
    assert Stored(st, ip) == Repeat(now, 0);
    BurstFrom(st, ip, now, 0, 15);
  }

  // ---------------------------------------------------------------------------
  // The handler

  /** Request headers by lower-cased name (the Fetch API's `Headers.get` ignores case). */
  type Headers = map<string, string>

  datatype Request = Request(verb: string, headers: Headers)

  datatype ResponseBody = NoBody | ErrorMessage(error: string) | Message(message: string)

  datatype Response = Response(status: int, body: ResponseBody)

  /** A header that is present and non-empty, as JavaScript's `||` tests it. */
  predicate HasValue(headers: Headers, name: string) {
    name in headers && headers[name] != ""
  }

  /** `x-real-ip`, else `x-forwarded-for`, else `'unknown'`; empty headers fall through. */
  function ClientKey(headers: Headers): (key: string)
    ensures key != ""
    ensures HasValue(headers, "x-real-ip") ==> key == headers["x-real-ip"]
    ensures !HasValue(headers, "x-real-ip") && HasValue(headers, "x-forwarded-for")
            ==> key == headers["x-forwarded-for"]
    ensures !HasValue(headers, "x-real-ip") && !HasValue(headers, "x-forwarded-for") ==> key == "unknown"
  {
    if HasValue(headers, "x-real-ip") then headers["x-real-ip"]
    else if HasValue(headers, "x-forwarded-for") then headers["x-forwarded-for"]
    else "unknown"
  }

  /** The middleware: preflight, else 429 when the client key is limited, else 200. */
  function Handle(req: Request, st: State, now: int): (r: (Response, State))
    ensures req.verb == "OPTIONS" ==> r == (Response(200, NoBody), st)
    ensures req.verb != "OPTIONS" ==>
              var limited := |Prune(Stored(st, ClientKey(req.headers)), now)| >= MaxRequests;
              && (limited ==> r == (Response(429, ErrorMessage("Too many requests")), st))
              && (!limited ==> r == (Response(200, Message("Rate limit check passed")),
                                     IsRateLimited(st, ClientKey(req.headers), now).1))
    ensures Bounded(st) ==> Bounded(r.1)
  {
    if req.verb == "OPTIONS" then (Response(200, NoBody), st)
    else
      var (limited, st') := IsRateLimited(st, ClientKey(req.headers), now);
      if limited then (Response(429, ErrorMessage("Too many requests")), st')
      else (Response(200, Message("Rate limit check passed")), st')
  }
}
