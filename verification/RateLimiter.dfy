/** Token buckets, one per tenant. Amounts and times are real numbers. */
module RateLimiter {
  function Min(x: real, y: real): real {
    if x < y then x else y
  }

  /** What a bucket gains between two clock readings. */
  function Accrual(rate: real, from: real, to: real): real {
    (to - from) * rate
  }

  lemma AccrualSplits(rate: real, a: real, c: real, e: real)
    ensures Accrual(rate, a, c) + Accrual(rate, c, e) == Accrual(rate, a, e)
    ensures Accrual(rate, a, a) == 0.0
  {
  }

  lemma Gains(rate: real, from: real, to: real)
    ensures Accrual(rate, from, to) == rate * (to - from) == (to - from) * rate
  {
  }

  lemma AccrualGrows(rate: real, from: real, to: real)
    requires 0.0 <= rate && from <= to
    ensures 0.0 <= Accrual(rate, from, to)
  {
  }

  datatype Bucket = Bucket(capacity: real, fillRate: real, tokens: real, lastUpdate: real) {
    /** Nothing is owed. A negative request is granted and adds tokens, so until the next refill there
        may be more than the capacity. */
    ghost predicate Valid() {
      0.0 <= tokens && 0.0 <= capacity && 0.0 <= fillRate
    }

    function Refill(now: real): real {
      Min(capacity, tokens + Accrual(fillRate, lastUpdate, now))
    }
  }

  /** A call to `consume`: when the clock is read, and how many tokens are asked for. */
  datatype Request = Request(at: real, tokens: real)

  function Full(capacity: real, fillRate: real, created: real): Bucket {
    Bucket(capacity, fillRate, capacity, created)
  }

  predicate Grants(b: Bucket, r: Request) {
    b.Refill(r.at) >= r.tokens
  }

  function After(b: Bucket, r: Request): Bucket {
    b.(tokens := b.Refill(r.at) - (if Grants(b, r) then r.tokens else 0.0), lastUpdate := r.at)
  }

  /** What a bucket holds when a request comes, and what it holds after that. */
  lemma Holds(b: Bucket, r: Request)
    ensures
      var filled := b.tokens + (r.at - b.lastUpdate) * b.fillRate;
      var held := if filled > b.capacity then b.capacity else filled;
      && (Grants(b, r) <==> held >= r.tokens)
      && After(b, r).tokens == (if Grants(b, r) then held - r.tokens else held) && After(b, r).lastUpdate == r.at
  {
    Gains(b.fillRate, b.lastUpdate, r.at);
  }

  // ---------- Traces ----------

  /** Times do not run backwards. */
  ghost predicate Sound(start: real, trace: seq<Request>) {
    && (forall k :: 0 <= k < |trace| ==> start <= trace[k].at)
    && (forall j, k :: 0 <= j < k < |trace| ==> trace[j].at <= trace[k].at)
  }

  function Run(b: Bucket, trace: seq<Request>): Bucket
    decreases |trace|
  {
    if trace == [] then b else Run(After(b, trace[0]), trace[1..])
  }

  function Outcomes(b: Bucket, trace: seq<Request>): (r: seq<bool>)
    ensures |r| == |trace|
    decreases |trace|
  {
    if trace == [] then [] else [Grants(b, trace[0])] + Outcomes(After(b, trace[0]), trace[1..])
  }

  lemma SoundTail(start: real, trace: seq<Request>)
    requires Sound(start, trace) && trace != []
    ensures Sound(trace[0].at, trace[1..])
  {
  }

  /** Tokens never run below zero, and stay within the capacity if no request is negative. */
  lemma {:induction false} RunValid(b: Bucket, trace: seq<Request>)
    requires b.Valid() && Sound(b.lastUpdate, trace)
    ensures Run(b, trace).Valid() && Run(b, trace).capacity == b.capacity && Run(b, trace).fillRate == b.fillRate
    ensures b.tokens <= b.capacity && (forall k :: 0 <= k < |trace| ==> 0.0 <= trace[k].tokens) ==>
      Run(b, trace).tokens <= b.capacity
    ensures Run(b, trace).lastUpdate == if trace == [] then b.lastUpdate else trace[|trace| - 1].at
    decreases |trace|
  {
    if trace != [] {
      SoundTail(b.lastUpdate, trace);
      AccrualGrows(b.fillRate, b.lastUpdate, trace[0].at);
      RunValid(After(b, trace[0]), trace[1..]);
    }
  }

  /** Some run whose requests are all for `amount` goes over the capacity exactly if that is negative. */
  lemma StaysWithinCapacityIff(capacity: real, fillRate: real, created: real, amount: real)
    requires 0.0 <= capacity && 0.0 <= fillRate
    ensures 0.0 <= amount <==> forall trace: seq<Request> ::
      Sound(created, trace) && (forall k :: 0 <= k < |trace| ==> trace[k].tokens == amount)
      ==> Run(Full(capacity, fillRate, created), trace).tokens <= capacity
  {
    var b := Full(capacity, fillRate, created);
    if 0.0 <= amount {
      forall trace: seq<Request>
        | Sound(created, trace) && (forall k :: 0 <= k < |trace| ==> trace[k].tokens == amount)
        ensures Run(b, trace).tokens <= capacity
      {
        RunValid(b, trace);
      }
    } else {
      var r := Request(created, amount);
      AccrualSplits(fillRate, created, created, created);
      RunAppend(b, [], r);
      assert [] + [r] == [r];
      assert Run(b, [r]).tokens == capacity - amount;
      assert Sound(created, [r]);
    }
  }

  lemma {:induction false} RunAppend(b: Bucket, trace: seq<Request>, r: Request)
    ensures Run(b, trace + [r]) == After(Run(b, trace), r)
    ensures Outcomes(b, trace + [r]) == Outcomes(b, trace) + [Grants(Run(b, trace), r)]
    decreases |trace|
  {
    if trace != [] {
      assert (trace + [r])[1..] == trace[1..] + [r];
      RunAppend(After(b, trace[0]), trace[1..], r);
    } else {
      assert [r][1..] == [];
    }
  }

  // ---------- The window law ----------

  /** Tokens granted by the calls from index `i` on. */
  function GrantedFrom(outcomes: seq<bool>, trace: seq<Request>, i: nat): real
    requires |outcomes| == |trace| && i <= |trace|
    decreases |trace| - i
  {
    if i == |trace| then 0.0 else (if outcomes[i] then trace[i].tokens else 0.0) + GrantedFrom(outcomes, trace, i + 1)
  }

  lemma {:induction false} GrantedFromAppend(outcomes: seq<bool>, trace: seq<Request>, i: nat, ok: bool, r: Request)
    requires |outcomes| == |trace| && i <= |trace|
    ensures GrantedFrom(outcomes + [ok], trace + [r], i) ==
            GrantedFrom(outcomes, trace, i) + (if ok then r.tokens else 0.0)
    decreases |trace| - i
  {
    if i < |trace| {
      GrantedFromAppend(outcomes, trace, i + 1, ok, r);
    } else {
      assert GrantedFrom(outcomes + [ok], trace + [r], i + 1) == 0.0;
    }
  }

  /** When the window that begins with call `i` opens; the one past the last call opens now. */
  function Opens(trace: seq<Request>, i: nat, now: real): real
    requires i <= |trace|
  {
    if i < |trace| then trace[i].at else now
  }

  /** What the window from `Opens` to `now` would still allow. */
  function Allowance(b: Bucket, trace: seq<Request>, i: nat, now: real): real
    requires i <= |trace|
  {
    b.capacity + Accrual(b.fillRate, Opens(trace, i, now), now) - GrantedFrom(Outcomes(b, trace), trace, i)
  }

  function Spent(b: Bucket, r: Request): real {
    if Grants(b, r) then r.tokens else 0.0
  }

  lemma {:induction false} AllowanceAppend(b: Bucket, trace: seq<Request>, r: Request, i: nat, now: real)
    requires i <= |trace|
    ensures Allowance(b, trace + [r], i, now) ==
            Allowance(b, trace, i, r.at) - Spent(Run(b, trace), r) + Accrual(b.fillRate, r.at, now)
  {
    RunAppend(b, trace, r);
    GrantedFromAppend(Outcomes(b, trace), trace, i, Grants(Run(b, trace), r), r);
    assert Opens(trace + [r], i, now) == Opens(trace, i, r.at);
    AccrualSplits(b.fillRate, Opens(trace, i, r.at), r.at, now);
  }

  /** The tokens available at any time are exactly the least allowance of any window. */
  lemma {:induction false} RefillIsLeastAllowance(b: Bucket, trace: seq<Request>, now: real)
    requires b.Valid() && b.tokens == b.capacity && Sound(b.lastUpdate, trace) && b.lastUpdate <= now
    requires forall k :: 0 <= k < |trace| ==> trace[k].at <= now
    ensures forall i :: 0 <= i <= |trace| ==> Run(b, trace).Refill(now) <= Allowance(b, trace, i, now)
    ensures exists i :: 0 <= i <= |trace| && Run(b, trace).Refill(now) == Allowance(b, trace, i, now)
    decreases |trace|
  {
    if trace == [] {
      AccrualGrows(b.fillRate, b.lastUpdate, now);
      AccrualSplits(b.fillRate, now, now, now);
      assert b.Refill(now) == Allowance(b, trace, 0, now);
    } else {
      var n := |trace| - 1;
      var init, r := trace[..n], trace[n];
      assert trace == init + [r];
      RefillIsLeastAllowance(b, init, r.at);
      LeastAllowanceStep(b, init, r, now);
    }
  }

  lemma LeastAllowanceStep(b: Bucket, init: seq<Request>, r: Request, now: real)
    requires b.Valid() && Sound(b.lastUpdate, init)
    requires forall i :: 0 <= i <= |init| ==> Run(b, init).Refill(r.at) <= Allowance(b, init, i, r.at)
    requires exists i :: 0 <= i <= |init| && Run(b, init).Refill(r.at) == Allowance(b, init, i, r.at)
    ensures var trace := init + [r];
      && (forall i :: 0 <= i <= |trace| ==> Run(b, trace).Refill(now) <= Allowance(b, trace, i, now))
      && (exists i :: 0 <= i <= |trace| && Run(b, trace).Refill(now) == Allowance(b, trace, i, now))
  {
    var trace, last := init + [r], |init| + 1;
    RunValid(b, init);
    RunAppend(b, init, r);
    AccrualSplits(b.fillRate, now, now, now);
    assert Allowance(b, trace, last, now) == b.capacity;
    forall i | 0 <= i <= |trace| ensures Run(b, trace).Refill(now) <= Allowance(b, trace, i, now) {
      if i < last { AllowanceAppend(b, init, r, i, now); }
    }
    var i :| 0 <= i <= |init| && Run(b, init).Refill(r.at) == Allowance(b, init, i, r.at);
    AllowanceAppend(b, init, r, i, now);
    assert Run(b, trace).Refill(now) ==
      Allowance(b, trace, if Allowance(b, trace, i, now) <= b.capacity then i else last, now);
  }

  /** The window from call `i` to the request still affords it: what a full bucket holds and gains in that time,
      less what was granted since. */
  ghost predicate Affords(capacity: real, fillRate: real, outcomes: seq<bool>, trace: seq<Request>, i: nat, r: Request)
    requires |outcomes| == |trace| && i <= |trace|
  {
    var gained := if i == |trace| then 0.0 else fillRate * (r.at - trace[i].at);
    r.tokens <= capacity + gained - GrantedFrom(outcomes, trace, i)
  }

  lemma {:induction false} AffordsIff(b: Bucket, trace: seq<Request>, i: nat, r: Request)
    requires i <= |trace|
    ensures Affords(b.capacity, b.fillRate, Outcomes(b, trace), trace, i, r) <==>
            r.tokens <= Allowance(b, trace, i, r.at)
  {
    if i < |trace| { Gains(b.fillRate, trace[i].at, r.at); } else { AccrualSplits(b.fillRate, r.at, r.at, r.at); }
  }

  /** The limiter is exactly the policy "no window ending now may exceed capacity + rate * length":
      a call is granted if and only if every such window can still afford it. */
  lemma {:induction false} GrantedIffEveryWindowAllows(capacity: real, fillRate: real, created: real,
                                                       trace: seq<Request>, r: Request)
    requires 0.0 <= capacity && 0.0 <= fillRate && Sound(created, trace + [r])
    ensures var b := Full(capacity, fillRate, created);
      Grants(Run(b, trace), r) <==>
      forall i :: 0 <= i <= |trace| ==> Affords(capacity, fillRate, Outcomes(b, trace), trace, i, r)
  {
    SoundSplit(created, trace, [r]);
    assert (trace + [r])[|trace|] == r;
    forall k | 0 <= k < |trace| ensures trace[k].at <= r.at {
      assert (trace + [r])[k] == trace[k];
    }
    var b := Full(capacity, fillRate, created);
    RefillIsLeastAllowance(b, trace, r.at);
    var j :| 0 <= j <= |trace| && Run(b, trace).Refill(r.at) == Allowance(b, trace, j, r.at);
    AffordsIff(b, trace, j, r);
    if Grants(Run(b, trace), r) {
      forall i | 0 <= i <= |trace| ensures Affords(capacity, fillRate, Outcomes(b, trace), trace, i, r) {
        AffordsIff(b, trace, i, r);
      }
    }
  }

  lemma SoundSplit(start: real, a: seq<Request>, c: seq<Request>)
    requires Sound(start, a + c)
    ensures Sound(start, a) && Sound(if a == [] then start else a[|a| - 1].at, c)
    ensures forall j, k :: 0 <= j < |a| && 0 <= k < |c| ==> a[j].at <= c[k].at
    ensures forall k :: 0 <= k < |c| ==> start <= c[k].at
  {
    var t := a + c;
    assert forall k :: 0 <= k < |a| ==> t[k] == a[k];
    forall k | 0 <= k < |c| ensures start <= c[k].at { assert t[|a| + k] == c[k]; }
    forall j, k | 0 <= j < k < |c| ensures c[j].at <= c[k].at { assert t[|a| + j] == c[j] && t[|a| + k] == c[k]; }
    forall j, k | 0 <= j < |a| && 0 <= k < |c| ensures a[j].at <= c[k].at { assert t[j] == a[j] && t[|a| + k] == c[k]; }
  }

  /** In any window of a trace, whatever happened before it, at most capacity + rate * length is granted. */
  lemma {:induction false} WindowBound(b: Bucket, before: seq<Request>, window: seq<Request>, s: real, t: real)
    requires b.Valid() && Sound(b.lastUpdate, before + window) && s <= t
    requires forall k :: 0 <= k < |window| ==> s <= window[k].at <= t
    ensures GrantedFrom(Outcomes(Run(b, before), window), window, 0) <= b.capacity + b.fillRate * (t - s)
  {
    Gains(b.fillRate, s, t);
    SoundSplit(b.lastUpdate, before, window);
    RunValid(b, before);
    if window == [] {
      AccrualGrows(b.fillRate, s, t);
    } else {
      SpentBound(Run(b, before), window, t);
      AccrualSplits(b.fillRate, s, window[0].at, t);
      AccrualGrows(b.fillRate, s, window[0].at);
    }
  }

  lemma {:induction false} GrantedFromTail(outcomes: seq<bool>, trace: seq<Request>, i: nat)
    requires |outcomes| == |trace| && 1 <= i <= |trace|
    ensures GrantedFrom(outcomes, trace, i) == GrantedFrom(outcomes[1..], trace[1..], i - 1)
    decreases |trace| - i
  {
    if i < |trace| { GrantedFromTail(outcomes, trace, i + 1); }
  }

  lemma {:induction false} SpentBound(b: Bucket, window: seq<Request>, t: real)
    requires b.Valid() && Sound(b.lastUpdate, window) && window != []
    requires forall k :: 0 <= k < |window| ==> window[k].at <= t
    ensures GrantedFrom(Outcomes(b, window), window, 0) <= b.Refill(window[0].at) + Accrual(b.fillRate, window[0].at, t)
    decreases |window|
  {
    var r := window[0];
    SoundTail(b.lastUpdate, window);
    var b' := After(b, r);
    AccrualGrows(b.fillRate, b.lastUpdate, r.at);
    assert b'.Valid();
    var out := Outcomes(b, window);
    GrantedFromTail(out, window, 1);
    assert out[1..] == Outcomes(b', window[1..]);
    AccrualGrows(b.fillRate, r.at, t);
    if |window| > 1 {
      SpentBound(b', window[1..], t);
      AccrualSplits(b.fillRate, r.at, window[1].at, t);
    }
  }

  // ---------- Denied calls leave no trace ----------

  /** The same bucket, looked at later. */
  function Tick(b: Bucket, now: real): Bucket {
    b.(tokens := b.Refill(now), lastUpdate := now)
  }

  lemma RefillAfterTick(b: Bucket, t: real, u: real)
    requires b.Valid() && t <= u
    ensures Tick(b, t).Refill(u) == b.Refill(u)
  {
    AccrualSplits(b.fillRate, b.lastUpdate, t, u);
    AccrualGrows(b.fillRate, t, u);
  }

  /** `live` is `stale` later on: at its time they refill alike, and no future call can tell them apart. */
  ghost predicate Lags(stale: Bucket, live: Bucket) {
    && stale.Valid() && live.Valid() && stale.lastUpdate <= live.lastUpdate
    && Tick(stale, live.lastUpdate) == Tick(live, live.lastUpdate)
  }

  lemma LaggingAgrees(stale: Bucket, live: Bucket, r: Request)
    requires Lags(stale, live) && live.lastUpdate <= r.at
    ensures After(stale, r) == After(live, r) && Grants(stale, r) == Grants(live, r)
  {
    RefillAfterTick(stale, live.lastUpdate, r.at);
    RefillAfterTick(live, live.lastUpdate, r.at);
  }

  /** A denied call moves the live bucket on and leaves the other behind. */
  lemma DeniedCallLags(stale: Bucket, live: Bucket, r: Request)
    requires Lags(stale, live) && live.lastUpdate <= r.at && !Grants(live, r)
    ensures Lags(stale, After(live, r))
  {
    LaggingAgrees(stale, live, r);
    AccrualGrows(live.fillRate, live.lastUpdate, r.at);
    AccrualSplits(live.fillRate, r.at, r.at, r.at);
  }

  lemma LagsItself(b: Bucket)
    requires b.Valid()
    ensures Lags(b, b)
  {
  }

  function Kept<T>(keep: seq<bool>, s: seq<T>): seq<T>
    requires |keep| == |s|
  {
    if s == [] then [] else if keep[0] then [s[0]] + Kept(keep[1..], s[1..]) else Kept(keep[1..], s[1..])
  }

  /** Leaving any set of denied calls out of a trace changes no remaining outcome. */
  lemma {:induction false} DeniedCallsAreInvisible(b: Bucket, trace: seq<Request>, keep: seq<bool>)
    requires b.Valid() && Sound(b.lastUpdate, trace) && |keep| == |trace|
    requires forall k :: 0 <= k < |trace| && !keep[k] ==> !Outcomes(b, trace)[k]
    ensures Outcomes(b, Kept(keep, trace)) == Kept(keep, Outcomes(b, trace))
  {
    LagsItself(b);
    DeniedInvisible(b, b, trace, keep);
  }

  lemma {:induction false} DeniedInvisible(stale: Bucket, live: Bucket, trace: seq<Request>, keep: seq<bool>)
    requires Lags(stale, live) && Sound(live.lastUpdate, trace) && |keep| == |trace|
    requires forall k :: 0 <= k < |trace| && !keep[k] ==> !Outcomes(live, trace)[k]
    ensures Outcomes(stale, Kept(keep, trace)) == Kept(keep, Outcomes(live, trace))
    decreases |trace|
  {
    if trace != [] {
      var r, rest := trace[0], trace[1..];
      var next := After(live, r);
      var out := Outcomes(live, trace);
      SoundTail(live.lastUpdate, trace);
      AccrualGrows(live.fillRate, live.lastUpdate, r.at);
      LaggingAgrees(stale, live, r);
      assert out[0] == Grants(live, r) && out[1..] == Outcomes(next, rest);
      assert forall k :: 0 <= k < |rest| ==> out[k + 1] == Outcomes(next, rest)[k] && keep[1..][k] == keep[k + 1];
      if keep[0] {
        LagsItself(next);
        DeniedInvisible(next, next, rest, keep[1..]);
        assert Kept(keep, trace)[1..] == Kept(keep[1..], rest);
      } else {
        DeniedCallLags(stale, live, r);
        DeniedInvisible(stale, next, rest, keep[1..]);
      }
    }
  }

  // ---------- Tenants ----------

  /** A tenant's call; `created` is the clock reading of the bucket it would create. */
  datatype Call = Call(tenant: string, created: real, request: Request)

  datatype Limiter = Limiter(capacity: real, fillRate: real, buckets: map<string, Bucket>)

  function BucketFor(l: Limiter, c: Call): Bucket {
    if c.tenant in l.buckets then l.buckets[c.tenant] else Full(l.capacity, l.fillRate, c.created)
  }

  function Serve(l: Limiter, c: Call): Limiter {
    l.(buckets := l.buckets[c.tenant := After(BucketFor(l, c), c.request)])
  }

  function Answers(l: Limiter, calls: seq<Call>): (r: seq<bool>)
    ensures |r| == |calls|
    decreases |calls|
  {
    if calls == [] then []
    else [Grants(BucketFor(l, calls[0]), calls[0].request)] + Answers(Serve(l, calls[0]), calls[1..])
  }

  function RequestsOf(t: string, calls: seq<Call>): seq<Request> {
    if calls == [] then [] else
    if calls[0].tenant == t then [calls[0].request] + RequestsOf(t, calls[1..]) else RequestsOf(t, calls[1..])
  }

  function AnswersTo(t: string, calls: seq<Call>, answers: seq<bool>): seq<bool>
    requires |answers| == |calls|
  {
    if calls == [] then [] else
    if calls[0].tenant == t then [answers[0]] + AnswersTo(t, calls[1..], answers[1..])
    else AnswersTo(t, calls[1..], answers[1..])
  }

  /** Each tenant's own calls come in order; buckets are created after `start`, before use. */
  ghost predicate Ordered(start: real, calls: seq<Call>) {
    && (forall k :: 0 <= k < |calls| ==> start <= calls[k].created <= calls[k].request.at)
    && (forall j, k :: 0 <= j < k < |calls| && calls[j].tenant == calls[k].tenant ==>
        calls[j].request.at <= calls[k].request.at)
  }

  /** Whatever the interleaving, a tenant sees exactly a private bucket that was there from the
      start: neither sharing the limiter nor creating buckets lazily is visible. */
  lemma TenantsAreIsolated(capacity: real, fillRate: real, start: real, calls: seq<Call>, t: string)
    requires 0.0 <= capacity && 0.0 <= fillRate && Ordered(start, calls)
    ensures AnswersTo(t, calls, Answers(Limiter(capacity, fillRate, map[]), calls)) ==
            Outcomes(Full(capacity, fillRate, start), RequestsOf(t, calls))
  {
    TenantShadowed(Limiter(capacity, fillRate, map[]), Full(capacity, fillRate, start), start, calls, t);
  }

  ghost predicate Shadows(l: Limiter, t: string, own: Bucket, start: real) {
    && own.Valid() && own.capacity == l.capacity && own.fillRate == l.fillRate
    && if t in l.buckets then l.buckets[t] == own else own == Full(l.capacity, l.fillRate, start)
  }

  lemma FullLags(capacity: real, fillRate: real, early: real, late: real)
    requires 0.0 <= capacity && 0.0 <= fillRate && early <= late
    ensures Lags(Full(capacity, fillRate, early), Full(capacity, fillRate, late))
  {
    AccrualGrows(fillRate, early, late);
  }

  lemma OrderedTail(start: real, calls: seq<Call>)
    requires Ordered(start, calls) && calls != []
    ensures Ordered(start, calls[1..])
  {
  }

  lemma {:induction false} TenantShadowed(l: Limiter, own: Bucket, start: real, calls: seq<Call>, t: string)
    requires Ordered(start, calls) && Shadows(l, t, own, start)
    requires forall k :: 0 <= k < |calls| && calls[k].tenant == t ==> own.lastUpdate <= calls[k].request.at
    ensures AnswersTo(t, calls, Answers(l, calls)) == Outcomes(own, RequestsOf(t, calls))
    decreases |calls|
  {
    if calls != [] {
      var c, rest := calls[0], calls[1..];
      OrderedTail(start, calls);
      assert Answers(l, calls)[1..] == Answers(Serve(l, c), rest);
      if c.tenant == t {
        var next := After(own, c.request);
        if t !in l.buckets {
          FullLags(l.capacity, l.fillRate, start, c.created);
          LaggingAgrees(own, Full(l.capacity, l.fillRate, c.created), c.request);
        }
        AccrualGrows(own.fillRate, own.lastUpdate, c.request.at);
        TenantShadowed(Serve(l, c), next, start, rest, t);
        assert RequestsOf(t, calls)[1..] == RequestsOf(t, rest);
      } else {
        TenantShadowed(Serve(l, c), own, start, rest, t);
      }
    }
  }

  // ---------- The objects ----------

  class TokenBucket {
    const capacity: real
    const fillRate: real
    var tokens: real
    var lastUpdate: real

    function View(): Bucket
      reads this
    {
      Bucket(capacity, fillRate, tokens, lastUpdate)
    }

    constructor (capacity: real, fillRate: real, now: real)
      ensures View() == Full(capacity, fillRate, now)
      ensures tokens == this.capacity == capacity && this.fillRate == fillRate && lastUpdate == now
    {
      this.capacity, this.fillRate := capacity, fillRate;
      tokens, lastUpdate := capacity, now;
    }

    method Consume(now: real, amount: real) returns (ok: bool)
      modifies this
      ensures View() == After(old(View()), Request(now, amount))
      ensures ok == Grants(old(View()), Request(now, amount))
      ensures lastUpdate == now
      ensures var filled := old(tokens) + (now - old(lastUpdate)) * fillRate;
        var held := if filled > capacity then capacity else filled;
        (ok <==> held >= amount) && tokens == if ok then held - amount else held
    {
      Holds(View(), Request(now, amount));
      var elapsed := now - lastUpdate;
      lastUpdate := now;
      tokens := Min(capacity, tokens + elapsed * fillRate);
      assert tokens == old(View()).Refill(now);
      if tokens >= amount {
        tokens := tokens - amount;
        return true;
      }
      return false;
    }
  }

  class TenantRateLimiter {
    const defaultCapacity: real
    const defaultFillRate: real
    var buckets: map<string, TokenBucket>

    /** No two tenants share a bucket object. */
    ghost predicate Valid()
      reads this
    {
      forall s, t :: s in buckets && t in buckets && s != t ==> buckets[s] != buckets[t]
    }

    function View(): Limiter
      reads this, buckets.Values
    {
      Limiter(defaultCapacity, defaultFillRate, map t | t in buckets :: buckets[t].View())
    }

    constructor (defaultCapacity: real, defaultFillRate: real)
      ensures Valid() && View() == Limiter(defaultCapacity, defaultFillRate, map[])
    {
      this.defaultCapacity, this.defaultFillRate := defaultCapacity, defaultFillRate;
      buckets := map[];
    }

    /** `created` and `now` are the clock readings of the bucket's construction and of its use. */
    method Consume(tenant: string, created: real, now: real, amount: real) returns (ok: bool)
      requires Valid()
      modifies this, buckets.Values
      ensures Valid() && fresh(buckets.Values - old(buckets.Values))
      ensures buckets.Keys == old(buckets).Keys + {tenant}
      ensures forall t <- old(buckets) :: buckets[t] == old(buckets)[t]
      ensures forall t <- old(buckets) :: t != tenant ==> buckets[t].View() == old(buckets[t].View())
      ensures View() == Serve(old(View()), Call(tenant, created, Request(now, amount)))
      ensures ok == Grants(BucketFor(old(View()), Call(tenant, created, Request(now, amount))), Request(now, amount))
    {
      if tenant !in buckets {
        var b := new TokenBucket(defaultCapacity, defaultFillRate, created);
        buckets := buckets[tenant := b];
      }
      ok := buckets[tenant].Consume(now, amount);
    }
  }
}
