/** `CircuitBreaker`: stop calling a dependency after consecutive failures, then let one probe through. */
module CircuitBreakers {
  import opened Wrappers

  datatype State = CLOSED | OPEN | HALF_OPEN

  /** The breaker's fields, and every success (true) and failure (false) it was told of. */
  datatype Breaker = Breaker(threshold: int, recovery: real, state: State, failures: nat, openedAt: Option<real>,
                             probing: bool, records: seq<bool>)

  function Fresh(threshold: int, recovery: real): Breaker {
    Breaker(threshold, recovery, CLOSED, 0, None, false, [])
  }

  function Transition(b: Breaker, now: real): Breaker {
    if b.state == OPEN && b.openedAt.Some? && now - b.openedAt.value >= b.recovery
    then b.(state := HALF_OPEN, probing := false) else b
  }

  predicate Allows(b: Breaker, now: real) {
    var t := Transition(b, now);
    t.state == CLOSED || (t.state == HALF_OPEN && !t.probing)
  }

  function Allowed(b: Breaker, now: real): Breaker {
    var t := Transition(b, now);
    if t.state == HALF_OPEN then t.(probing := true) else t
  }

  function Succeeded(b: Breaker): Breaker {
    b.(state := CLOSED, failures := 0, openedAt := None, probing := false, records := b.records + [true])
  }

  function Failed(b: Breaker, now: real): Breaker {
    var c := b.(failures := b.failures + 1, records := b.records + [false]);
    if c.failures >= b.threshold then c.(state := OPEN, openedAt := Some(now), probing := false) else c
  }

  class CircuitBreaker {
    const threshold: int
    const recovery: real
    var state: State
    var failures: nat
    var openedAt: Option<real>
    var probing: bool
    ghost var records: seq<bool>

    ghost function View(): Breaker
      reads this
    {
      Breaker(threshold, recovery, state, failures, openedAt, probing, records)
    }

    constructor (threshold: int, recovery: real)
      requires threshold >= 1 && recovery > 0.0
      ensures View() == Fresh(threshold, recovery)
      ensures state == CLOSED && failures == 0 && openedAt == None && !probing && records == []
    {
      this.threshold, this.recovery := threshold, recovery;
      state, failures, openedAt, probing, records := CLOSED, 0, None, false, [];
    }

    method AllowRequest(now: real) returns (ok: bool)
      modifies this
      ensures ok <==> Allows(old(View()), now)
      ensures View() == Allowed(old(View()), now)
      ensures old(state) == CLOSED ==> ok
      ensures old(state) == HALF_OPEN ==> (ok <==> !old(probing))
      ensures old(state) == OPEN ==> (ok <==> old(openedAt).Some? && now >= old(openedAt).value + recovery)
      ensures state == if ok && old(state) == OPEN then HALF_OPEN else old(state)
      ensures probing == if ok && state == HALF_OPEN then true else old(probing)
      ensures failures == old(failures) && openedAt == old(openedAt) && records == old(records)
    {
      if state == OPEN && openedAt.Some? && now - openedAt.value >= recovery {
        state, probing := HALF_OPEN, false;
      }
      if state == OPEN { return false; }
      if state == HALF_OPEN {
        if probing { return false; }
        probing := true;
        return true;
      }
      return true;
    }

    method RecordSuccess()
      modifies this
      ensures View() == Succeeded(old(View()))
      ensures state == CLOSED && failures == 0 && openedAt == None && !probing && records == old(records) + [true]
    {
      state, failures, openedAt, probing, records := CLOSED, 0, None, false, records + [true];
    }

    method RecordFailure(now: real)
      modifies this
      ensures View() == Failed(old(View()), now)
      ensures failures == old(failures) + 1 && records == old(records) + [false]
      ensures if failures >= threshold then state == OPEN && openedAt == Some(now) && !probing
        else state == old(state) && openedAt == old(openedAt) && probing == old(probing)
    {
      failures, records := failures + 1, records + [false];
      if failures >= threshold {
        state, openedAt, probing := OPEN, Some(now), false;
      }
    }
  }

  // ---------- What the breaker knows ----------

  /** How many failures end the first `n` records. */
  function TrailingIn(records: seq<bool>, n: nat): nat
    requires n <= |records|
  {
    if n == 0 || records[n - 1] then 0 else 1 + TrailingIn(records, n - 1)
  }

  /** How many failures end the history. */
  function Trailing(records: seq<bool>): nat {
    TrailingIn(records, |records|)
  }

  lemma {:induction false} TrailingIsLocal(records: seq<bool>, more: seq<bool>, n: nat)
    requires n <= |records|
    ensures TrailingIn(records + more, n) == TrailingIn(records, n)
  {
    if n > 0 && !records[n - 1] { TrailingIsLocal(records, more, n - 1); }
  }

  /** The circuit is closed exactly while fewer than `threshold` operations in a row have failed. */
  ghost predicate Sound(b: Breaker) {
    && b.threshold >= 1 && b.recovery > 0.0
    && b.failures == Trailing(b.records)
    && (b.state == CLOSED <==> Trailing(b.records) < b.threshold)
    && (b.state == CLOSED <==> b.openedAt.None?)
    && (b.probing ==> b.state == HALF_OPEN)
  }

  lemma {:induction false} StaysSound(b: Breaker, now: real)
    requires Sound(b)
    ensures Sound(Allowed(b, now)) && Sound(Succeeded(b)) && Sound(Failed(b, now))
  {
    TrailingIsLocal(b.records, [false], |b.records|);
  }

  /** A probe was let through and its outcome has not been recorded. */
  predicate Wedged(b: Breaker) {
    b.state == HALF_OPEN && b.probing
  }

  /** The next request is let through as a probe. */
  predicate Probes(b: Breaker, now: real) {
    Allows(b, now) && Transition(b, now).state == HALF_OPEN
  }
}
