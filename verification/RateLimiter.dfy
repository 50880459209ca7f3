/** The per-IP fixed-window rate limiter of the HTTP front door.

    Time is an integer instant.  The limiter itself is a class that updates its buckets in
    place; what a whole trace of calls can achieve is stated over the value-level step `Decide`,
    which the class is proved to follow. */
module RateLimiter {

  datatype Bucket = Bucket(count: int, reset: int)

  type Buckets = map<string, Bucket>

  datatype Config = Config(limit: int, window: int) {
    // The first request of a bucket is admitted before the limit is looked at.
    function Cap(): int { if limit < 1 then 1 else limit }
  }

  datatype Call = Call(ip: string, now: int)

  // One locked section of `allow`: the buckets afterwards and the verdict.
  function Decide(c: Config, bs: Buckets, call: Call): (Buckets, bool) {
    if call.ip !in bs || call.now > bs[call.ip].reset then
      (bs[call.ip := Bucket(1, call.now + c.window)], true)
    else if bs[call.ip].count >= c.limit then
      (bs, false)
    else
      (bs[call.ip := bs[call.ip].(count := bs[call.ip].count + 1)], true)
  }

  // --- The object the middleware holds --------------------------------------------------------

  class RateBucket {
    var count: int
    var reset: int

    constructor (count: int, reset: int)
      ensures this.count == count && this.reset == reset
    {
      this.count := count;
      this.reset := reset;
    }
  }

  class IpRateLimiter {
    var buckets: map<string, RateBucket>
    const config: Config

    // No two addresses share a bucket object.
    ghost predicate Valid()
      reads this
    {
      forall ip, other :: ip in buckets && other in buckets && ip != other ==> buckets[ip] != buckets[other]
    }

    ghost function State(): Buckets
      reads this, buckets.Values
    {
      map ip | ip in buckets :: Bucket(buckets[ip].count, buckets[ip].reset)
    }

    constructor (limit: int, window: int)
      ensures Valid() && State() == map[] && config == Config(limit, window)
    {
      buckets := map[];
      config := Config(limit, window);
    }

    method Allow(ip: string, now: int) returns (ok: bool)
      requires Valid()
      modifies this, buckets.Values
      ensures Valid() && fresh(buckets.Values - old(buckets.Values))
      ensures (State(), ok) == Decide(config, old(State()), Call(ip, now))
    {
      if ip !in buckets || now > buckets[ip].reset {
        var b := new RateBucket(1, now + config.window);
        buckets := buckets[ip := b];
        assert State() == old(State())[ip := Bucket(1, now + config.window)];
        return true;
      }
      var b := buckets[ip];
      if b.count >= config.limit {
        return false;
      }
      b.count := b.count + 1;
      assert State() == old(State())[ip := old(State())[ip].(count := old(State())[ip].count + 1)];
      return true;
    }
  }

  // --- Whole traces ---------------------------------------------------------------------------

  // The buckets a trace of calls leaves behind, and the calls it admitted, oldest first.
  function Exec(c: Config, calls: seq<Call>): (Buckets, seq<Call>) {
    if |calls| == 0 then (map[], [])
    else
      var (bs, admitted) := Exec(c, calls[..|calls| - 1]);
      var call := calls[|calls| - 1];
      var (bs', ok) := Decide(c, bs, call);
      (bs', if ok then admitted + [call] else admitted)
  }

  // How many calls of `ip` fall at an instant in [lo, hi].
  function CountIn(calls: seq<Call>, ip: string, lo: int, hi: int): nat {
    if |calls| == 0 then 0
    else
      var call := calls[|calls| - 1];
      CountIn(calls[..|calls| - 1], ip, lo, hi) + if call.ip == ip && lo <= call.now <= hi then 1 else 0
  }

  // Admissions of `ip` in [lo, hi] over the whole trace.
  function Admissions(c: Config, calls: seq<Call>, ip: string, lo: int, hi: int): nat {
    CountIn(Exec(c, calls).1, ip, lo, hi)
  }

  // `now` is read while the mutex is held, so a trace never runs backwards.
  ghost predicate Monotone(calls: seq<Call>) {
    forall i, j :: 0 <= i < j < |calls| ==> calls[i].now <= calls[j].now
  }

  ghost predicate NotAfter(calls: seq<Call>, ip: string, t: int) {
    forall i :: 0 <= i < |calls| && calls[i].ip == ip ==> calls[i].now <= t
  }

  lemma {:induction false} ExecStep(c: Config, calls: seq<Call>, call: Call)
    ensures var (bs, admitted) := Exec(c, calls);
            var (bs', ok) := Decide(c, bs, call);
            Exec(c, calls + [call]) == (bs', if ok then admitted + [call] else admitted)
  {
    assert (calls + [call])[..|calls|] == calls;
  }

  lemma CountInStep(calls: seq<Call>, call: Call, ip: string, lo: int, hi: int)
    ensures CountIn(calls + [call], ip, lo, hi) ==
            CountIn(calls, ip, lo, hi) + if call.ip == ip && lo <= call.now <= hi then 1 else 0
  {
    assert (calls + [call])[..|calls|] == calls;
  }

  lemma {:induction false} CountInNarrower(calls: seq<Call>, ip: string, lo: int, hi: int, lo': int, hi': int)
    requires forall i :: 0 <= i < |calls| && calls[i].ip == ip && lo <= calls[i].now <= hi ==>
             lo' <= calls[i].now <= hi'
    ensures CountIn(calls, ip, lo, hi) <= CountIn(calls, ip, lo', hi')
  {
    if |calls| > 0 {
      CountInNarrower(calls[..|calls| - 1], ip, lo, hi, lo', hi');
    }
  }

  lemma {:induction false} CountInSplit(calls: seq<Call>, ip: string, lo: int, mid: int, hi: int)
    requires lo <= mid <= hi + 1
    ensures CountIn(calls, ip, lo, hi) == CountIn(calls, ip, lo, mid - 1) + CountIn(calls, ip, mid, hi)
  {
    if |calls| > 0 {
      CountInSplit(calls[..|calls| - 1], ip, lo, mid, hi);
    }
  }

  // What the bucket of `ip` knows about the calls admitted so far.
  ghost predicate Explains(c: Config, bs: Buckets, admitted: seq<Call>, ip: string) {
    if ip in bs then
      var b, start := bs[ip], bs[ip].reset - c.window;
      && 1 <= b.count <= c.Cap()
      && NotAfter(admitted, ip, b.reset)
      && CountIn(admitted, ip, start, b.reset) == b.count
      && CountIn(admitted, ip, start, start) >= 1
      && CountIn(admitted, ip, start - c.window, start - 1) <= c.Cap() - 1
    else
      forall i :: 0 <= i < |admitted| ==> admitted[i].ip != ip
  }

  // Past its first instant the newest bucket has fewer admissions than the cap.
  lemma AfterFirst(c: Config, bs: Buckets, admitted: seq<Call>, ip: string, lo: int, hi: int)
    requires Explains(c, bs, admitted, ip) && c.window >= 0
    requires ip in bs ==> lo > bs[ip].reset - c.window
    ensures CountIn(admitted, ip, lo, hi) <= c.Cap() - 1
  {
    if ip in bs {
      var start := bs[ip].reset - c.window;
      CountInNarrower(admitted, ip, lo, hi, start + 1, bs[ip].reset);
      CountInSplit(admitted, ip, start, start + 1, bs[ip].reset);
    } else {
      CountInNarrower(admitted, ip, lo, hi, 1, 0);
      NoneInEmpty(admitted, ip, 1, 0);
    }
  }

  lemma {:induction false} NoneInEmpty(calls: seq<Call>, ip: string, lo: int, hi: int)
    requires forall i :: 0 <= i < |calls| && calls[i].ip == ip ==> !(lo <= calls[i].now <= hi)
    ensures CountIn(calls, ip, lo, hi) == 0
  {
    if |calls| > 0 {
      NoneInEmpty(calls[..|calls| - 1], ip, lo, hi);
    }
  }

  // A call of another address leaves the account of `ip` as it was.
  lemma OtherExplained(c: Config, bs: Buckets, admitted: seq<Call>, call: Call, ip: string)
    requires Explains(c, bs, admitted, ip) && call.ip != ip
    ensures Explains(c, bs, admitted + [call], ip)
  {
    if ip in bs {
      var b, start := bs[ip], bs[ip].reset - c.window;
      CountInStep(admitted, call, ip, start, b.reset);
      CountInStep(admitted, call, ip, start, start);
      CountInStep(admitted, call, ip, start - c.window, start - 1);
    }
  }

  // A call that opens a bucket.
  lemma OpenedExplained(c: Config, bs: Buckets, admitted: seq<Call>, call: Call)
    requires c.window >= 0 && NotAfter(admitted, call.ip, call.now) && Explains(c, bs, admitted, call.ip)
    requires call.ip in bs ==> call.now > bs[call.ip].reset
    ensures Explains(c, bs[call.ip := Bucket(1, call.now + c.window)], admitted + [call], call.ip)
  {
    var ip, now := call.ip, call.now;
    CountInStep(admitted, call, ip, now, now + c.window);
    CountInStep(admitted, call, ip, now, now);
    CountInStep(admitted, call, ip, now - c.window, now - 1);
    AfterFirst(c, bs, admitted, ip, now - c.window, now - 1);
    NoneInEmpty(admitted, ip, now, now + c.window);
  }

  // A call that counts in the open bucket.
  lemma CountedExplained(c: Config, bs: Buckets, admitted: seq<Call>, call: Call)
    requires c.window >= 0 && NotAfter(admitted, call.ip, call.now) && Explains(c, bs, admitted, call.ip)
    requires call.ip in bs && call.now <= bs[call.ip].reset && bs[call.ip].count < c.limit
    ensures var b := bs[call.ip]; Explains(c, bs[call.ip := b.(count := b.count + 1)], admitted + [call], call.ip)
  {
    var ip := call.ip;
    var b, start := bs[ip], bs[ip].reset - c.window;
    StartReached(admitted, ip, start, call.now);
    CountInStep(admitted, call, ip, start, b.reset);
    CountInStep(admitted, call, ip, start, start);
    CountInStep(admitted, call, ip, start - c.window, start - 1);
  }

  lemma OtherBucketSame(c: Config, bs: Buckets, admitted: seq<Call>, call: Call, ip: string)
    requires Explains(c, bs, admitted, ip) && call.ip != ip
    ensures Explains(c, Decide(c, bs, call).0, admitted, ip)
  {
  }

  lemma StepExplained(c: Config, bs: Buckets, admitted: seq<Call>, call: Call, ip: string)
    requires c.window >= 0 && NotAfter(admitted, ip, call.now)
    requires Explains(c, bs, admitted, ip)
    ensures var (bs', ok) := Decide(c, bs, call);
            Explains(c, bs', if ok then admitted + [call] else admitted, ip)
  {
    if call.ip != ip {
      OtherBucketSame(c, bs, admitted, call, ip);
      OtherExplained(c, Decide(c, bs, call).0, admitted, call, ip);
    } else if ip !in bs || call.now > bs[ip].reset {
      OpenedExplained(c, bs, admitted, call);
    } else if bs[ip].count < c.limit {
      CountedExplained(c, bs, admitted, call);
    }
  }

  lemma StartReached(admitted: seq<Call>, ip: string, start: int, now: int)
    requires NotAfter(admitted, ip, now) && CountIn(admitted, ip, start, start) >= 1
    ensures start <= now
  {
    if start > now {
      NoneInEmpty(admitted, ip, start, start);
    }
  }

  lemma {:induction false} AdmittedNotAfter(c: Config, calls: seq<Call>, ip: string, t: int)
    requires forall i :: 0 <= i < |calls| ==> calls[i].now <= t
    ensures NotAfter(Exec(c, calls).1, ip, t)
  {
    if |calls| > 0 {
      AdmittedNotAfter(c, calls[..|calls| - 1], ip, t);
    }
  }

  lemma {:induction false} TraceExplained(c: Config, calls: seq<Call>, ip: string)
    requires Monotone(calls) && c.window >= 0
    ensures Explains(c, Exec(c, calls).0, Exec(c, calls).1, ip)
  {
    if |calls| > 0 {
      var before, call := calls[..|calls| - 1], calls[|calls| - 1];
      TraceExplained(c, before, ip);
      AdmittedNotAfter(c, before, ip, call.now);
      StepExplained(c, Exec(c, before).0, Exec(c, before).1, call, ip);
    }
  }

  /** The sliding-window bound: whatever the other addresses do, no closed interval as long as the
      window holds more than 2*limit - 1 admissions of one address. */
  lemma {:induction false} SlidingWindowBound(c: Config, calls: seq<Call>, ip: string, from: int)
    requires Monotone(calls)
    ensures Admissions(c, calls, ip, from, from + c.window) <= 2 * c.Cap() - 1
  {
    var hi := from + c.window;
    if c.window < 0 || |calls| == 0 {
      NoneInEmpty(Exec(c, calls).1, ip, from, hi);
    } else {
      var before, call := calls[..|calls| - 1], calls[|calls| - 1];
      SlidingWindowBound(c, before, ip, from);
      assert before + [call] == calls;
      ExecStep(c, before, call);
      CountInStep(Exec(c, before).1, call, ip, from, hi);
      if Decide(c, Exec(c, before).0, call).1 && call.ip == ip && from <= call.now <= hi {
        NewestInWindow(c, before, call, from);
      }
    }
  }

  // An interval that holds the newest admission lies within the newest bucket and the window before it.
  lemma NewestInWindow(c: Config, before: seq<Call>, call: Call, from: int)
    requires Monotone(before + [call]) && c.window >= 0
    requires Decide(c, Exec(c, before).0, call).1 && from <= call.now <= from + c.window
    ensures Admissions(c, before + [call], call.ip, from, from + c.window) <= 2 * c.Cap() - 1
  {
    var calls := before + [call];
    ExecStep(c, before, call);
    TraceExplained(c, calls, call.ip);
    AdmittedInsideBucket(c, Exec(c, before).0, call);
    AdmittedNotAfter(c, calls, call.ip, call.now);
    WindowOfBucket(c, Exec(c, calls).0, Exec(c, calls).1, call, from);
  }

  lemma WindowOfBucket(c: Config, bs: Buckets, admitted: seq<Call>, call: Call, from: int)
    requires c.window >= 0 && call.ip in bs && Explains(c, bs, admitted, call.ip)
    requires call.now <= bs[call.ip].reset && NotAfter(admitted, call.ip, call.now) &&
             from <= call.now <= from + c.window
    ensures CountIn(admitted, call.ip, from, from + c.window) <= 2 * c.Cap() - 1
  {
    var ip, b := call.ip, bs[call.ip];
    var start := b.reset - c.window;
    StartReached(admitted, ip, start, call.now);
    CountInNarrower(admitted, ip, from, from + c.window, start - c.window, b.reset);
    CountInSplit(admitted, ip, start - c.window, start, b.reset);
  }

  lemma AdmittedInsideBucket(c: Config, bs: Buckets, call: Call)
    requires c.window >= 0 && Decide(c, bs, call).1
    ensures call.ip in Decide(c, bs, call).0 && call.now <= Decide(c, bs, call).0[call.ip].reset
  {
  }

  /** A refusal is always earned: the address was admitted `limit` times within the window that
      ends at the refused call. */
  lemma RefusalEarned(c: Config, calls: seq<Call>, call: Call)
    requires Monotone(calls + [call]) && c.window >= 0
    requires !Decide(c, Exec(c, calls).0, call).1
    ensures Admissions(c, calls, call.ip, call.now - c.window, call.now) >= c.Cap()
  {
    var (bs, admitted) := Exec(c, calls);
    var longer := calls + [call];
    assert forall i :: 0 <= i < |calls| ==> longer[i] == calls[i] && longer[i].now <= longer[|calls|].now;
    AdmittedNotAfter(c, calls, call.ip, call.now);
    TraceExplained(c, calls, call.ip);
    var start := bs[call.ip].reset - c.window;
    CountInNarrower(admitted, call.ip, start, bs[call.ip].reset, call.now - c.window, call.now);
  }

  // The calls of one address, in order.
  function OnlyFrom(calls: seq<Call>, ip: string): seq<Call> {
    if |calls| == 0 then []
    else
      var rest := OnlyFrom(calls[..|calls| - 1], ip);
      if calls[|calls| - 1].ip == ip then rest + [calls[|calls| - 1]] else rest
  }

  // `ip` finds the same bucket, or none, in both.
  predicate SameBucket(bs: Buckets, other: Buckets, ip: string) {
    (ip in bs <==> ip in other) && (ip in bs ==> bs[ip] == other[ip])
  }

  /** Addresses do not interfere: what `ip` is granted is what it would be granted alone. */
  lemma {:induction false} Independent(c: Config, calls: seq<Call>, ip: string)
    ensures OnlyFrom(Exec(c, calls).1, ip) == Exec(c, OnlyFrom(calls, ip)).1
    ensures SameBucket(Exec(c, calls).0, Exec(c, OnlyFrom(calls, ip)).0, ip)
  {
    if |calls| > 0 {
      var before, call := calls[..|calls| - 1], calls[|calls| - 1];
      assert calls == before + [call];
      Independent(c, before, ip);
      ExecStep(c, before, call);
      ExecStep(c, OnlyFrom(before, ip), call);
      OnlyFromStep(before, call, ip);
      OnlyFromStep(Exec(c, before).1, call, ip);
      SameVerdict(c, Exec(c, before).0, Exec(c, OnlyFrom(before, ip)).0, call, ip);
    }
  }

  lemma OnlyFromStep(calls: seq<Call>, call: Call, ip: string)
    ensures OnlyFrom(calls + [call], ip) == OnlyFrom(calls, ip) + if call.ip == ip then [call] else []
  {
    assert (calls + [call])[..|calls|] == calls;
  }

  lemma SameVerdict(c: Config, bs: Buckets, other: Buckets, call: Call, ip: string)
    requires SameBucket(bs, other, ip)
    ensures call.ip == ip ==> Decide(c, bs, call).1 == Decide(c, other, call).1
    ensures call.ip == ip ==> SameBucket(Decide(c, bs, call).0, Decide(c, other, call).0, ip)
    ensures call.ip != ip ==> SameBucket(Decide(c, bs, call).0, other, ip)
  {
  }

  // `n` calls of one address at one instant.
  function Burst(ip: string, now: int, n: nat): seq<Call> {
    if n == 0 then [] else Burst(ip, now, n - 1) + [Call(ip, now)]
  }

  lemma Granted(c: Config, calls: seq<Call>, call: Call, lo: int, hi: int)
    requires Decide(c, Exec(c, calls).0, call).1
    ensures Exec(c, calls + [call]).0 == Decide(c, Exec(c, calls).0, call).0
    ensures Admissions(c, calls + [call], call.ip, lo, hi) ==
            Admissions(c, calls, call.ip, lo, hi) + if lo <= call.now <= hi then 1 else 0
  {
    ExecStep(c, calls, call);
    CountInStep(Exec(c, calls).1, call, call.ip, lo, hi);
  }

  predicate HasBucket(c: Config, calls: seq<Call>, ip: string, b: Bucket) {
    var bs := Exec(c, calls).0;
    ip in bs && bs[ip] == b
  }

  // One call against a bucket below the limit.
  lemma OneMoreAdmitted(c: Config, calls: seq<Call>, b: Bucket, ip: string, now: int, lo: int, hi: int)
    requires HasBucket(c, calls, ip, b) && now <= b.reset && b.count < c.limit
    ensures HasBucket(c, calls + [Call(ip, now)], ip, b.(count := b.count + 1))
    ensures Admissions(c, calls + [Call(ip, now)], ip, lo, hi) ==
            Admissions(c, calls, ip, lo, hi) + if lo <= now <= hi then 1 else 0
  {
    Granted(c, calls, Call(ip, now), lo, hi);
  }

  lemma {:induction false} BurstAdmitted(c: Config, calls: seq<Call>, b: Bucket, ip: string, now: int, n: nat,
                                         lo: int, hi: int)
    requires HasBucket(c, calls, ip, b) && now <= b.reset && b.count + n <= c.limit
    ensures HasBucket(c, calls + Burst(ip, now, n), ip, b.(count := b.count + n))
    ensures Admissions(c, calls + Burst(ip, now, n), ip, lo, hi) ==
            Admissions(c, calls, ip, lo, hi) + if lo <= now <= hi then n else 0
  {
    if n == 0 {
      assert calls + Burst(ip, now, 0) == calls;
    } else {
      var shorter := calls + Burst(ip, now, n - 1);
      BurstAdmitted(c, calls, b, ip, now, n - 1, lo, hi);
      assert calls + Burst(ip, now, n) == shorter + [Call(ip, now)];
      OneMoreAdmitted(c, shorter, b.(count := b.count + n - 1), ip, now, lo, hi);
    }
  }

  // A bucket opened at `now`, and filled up at `later`.
  function Filled(c: Config, calls: seq<Call>, ip: string, now: int, later: int): seq<Call>
    requires c.limit >= 1
  {
    calls + [Call(ip, now)] + Burst(ip, later, c.limit - 1)
  }

  // The next call of `ip` opens a bucket.
  predicate Lapsed(c: Config, calls: seq<Call>, ip: string, now: int) {
    var bs := Exec(c, calls).0;
    ip in bs ==> now > bs[ip].reset
  }

  lemma BucketOpened(c: Config, calls: seq<Call>, ip: string, now: int, lo: int, hi: int)
    requires Lapsed(c, calls, ip, now)
    ensures HasBucket(c, calls + [Call(ip, now)], ip, Bucket(1, now + c.window))
    ensures Admissions(c, calls + [Call(ip, now)], ip, lo, hi) ==
            Admissions(c, calls, ip, lo, hi) + if lo <= now <= hi then 1 else 0
  {
    Granted(c, calls, Call(ip, now), lo, hi);
  }

  lemma BucketFilled(c: Config, calls: seq<Call>, ip: string, now: int, later: int, lo: int, hi: int)
    requires c.limit >= 1 && now <= later <= now + c.window && Lapsed(c, calls, ip, now)
    ensures HasBucket(c, Filled(c, calls, ip, now, later), ip, Bucket(c.limit, now + c.window))
    ensures Admissions(c, Filled(c, calls, ip, now, later), ip, lo, hi) ==
            Admissions(c, calls, ip, lo, hi) + (if lo <= now <= hi then 1 else 0) +
              (if lo <= later <= hi then c.limit - 1 else 0)
  {
    var begun := calls + [Call(ip, now)];
    assert Filled(c, calls, ip, now, later) == begun + Burst(ip, later, c.limit - 1);
    BucketOpened(c, calls, ip, now, lo, hi);
    FilledUp(c, begun, now + c.window, ip, later, lo, hi);
  }

  lemma FilledUp(c: Config, calls: seq<Call>, reset: int, ip: string, later: int, lo: int, hi: int)
    requires c.limit >= 1 && later <= reset && HasBucket(c, calls, ip, Bucket(1, reset))
    ensures HasBucket(c, calls + Burst(ip, later, c.limit - 1), ip, Bucket(c.limit, reset))
    ensures Admissions(c, calls + Burst(ip, later, c.limit - 1), ip, lo, hi) ==
            Admissions(c, calls, ip, lo, hi) + if lo <= later <= hi then c.limit - 1 else 0
  {
    BurstAdmitted(c, calls, Bucket(1, reset), ip, later, c.limit - 1, lo, hi);
  }

  // One early call, the rest of its bucket at the last instant, and a full bucket right after.
  function WorstCase(c: Config, ip: string): seq<Call>
    requires c.limit >= 1
  {
    Filled(c, Filled(c, [], ip, 0, c.window), ip, c.window + 1, c.window + 1)
  }

  lemma {:induction false} BurstShape(ip: string, now: int, n: nat)
    ensures |Burst(ip, now, n)| == n
    ensures forall i :: 0 <= i < n ==> Burst(ip, now, n)[i] == Call(ip, now)
  {
    if n > 0 {
      BurstShape(ip, now, n - 1);
    }
  }

  lemma WorstCaseMonotone(c: Config, ip: string)
    requires c.limit >= 1 && c.window >= 1
    ensures Monotone(WorstCase(c, ip))
  {
    BurstShape(ip, c.window, c.limit - 1);
    BurstShape(ip, c.window + 1, c.limit - 1);
  }

  /** The bound is attained, so it cannot be improved for any limit and any positive window. */
  lemma BoundAttained(c: Config, ip: string)
    requires c.limit >= 1 && c.window >= 1
    ensures Monotone(WorstCase(c, ip))
    ensures Admissions(c, WorstCase(c, ip), ip, 1, 1 + c.window) == 2 * c.Cap() - 1
  {
    WorstCaseMonotone(c, ip);
    BucketFilled(c, [], ip, 0, c.window, 1, 1 + c.window);
    BucketFilled(c, Filled(c, [], ip, 0, c.window), ip, c.window + 1, c.window + 1, 1, 1 + c.window);
  }
}
