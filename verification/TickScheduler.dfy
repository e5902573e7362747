/** The timer tick: each client runs at its initial timeout and then periodically, on a 32-bit tick that wraps. */
module TickScheduler {

  const WRAP := 0x1_0000_0000

  datatype Client = Client(initialTimeout: nat, timeout: nat, nextTick: nat)

  /** A timeout of 0 waits for the tick to come round. */
  function Period(timeout: nat): (p: nat)
    requires timeout < WRAP
    ensures 0 < p <= WRAP
  {
    if timeout == 0 then WRAP else timeout
  }

  /** Call `k` is `r` periods after the first one. */
  predicate Periodic(initial: nat, period: nat, r: nat, k: nat) { k == initial + r * period }

  /** k is the initial timeout plus a whole number of periods. */
  ghost predicate RunsOn(initial: nat, timeout: nat, k: nat)
    requires timeout < WRAP
  {
    exists r :: Periodic(initial, Period(timeout), r, k)
  }

  /** The value of `nextTick` before call `k`, by the rule of `tbsTimeout` on the wrapping tick. */
  function NextTick(initial: nat, timeout: nat, k: nat): nat {
    if k == 0 then initial else
      var n := NextTick(initial, timeout, k - 1);
      if n == (k - 1) % WRAP then ((k - 1) % WRAP + timeout) % WRAP else n
  }

  lemma DifferentTicks(a: nat, b: nat)
    requires a < b < a + WRAP
    ensures a % WRAP != b % WRAP
  {
  }

  lemma WrappedSum(a: nat, timeout: nat)
    requires timeout < WRAP
    ensures (a % WRAP + timeout) % WRAP == (a + Period(timeout)) % WRAP
  {
  }

  lemma OnePeriodOn(initial: nat, period: nat, q: nat, due: nat)
    requires Periodic(initial, period, q, due)
    ensures Periodic(initial, period, q + 1, due + period)
  {
    assert (q + 1) * period == q * period + period;
  }

  lemma TickAdvances(calls: nat)
    ensures (calls % WRAP + 1) % WRAP == (calls + 1) % WRAP
  {
  }

  /** The next call, not before `k`, on which the client runs, without wrap-around. */
  ghost function Due(initial: nat, period: nat, k: nat): nat {
    if k == 0 then initial else
      var d := Due(initial, period, k - 1);
      if d == k - 1 then d + period else d
  }

  lemma {:induction false} DueAhead(initial: nat, period: nat, k: nat)
    requires initial < WRAP && 0 < period <= WRAP
    ensures k <= Due(initial, period, k) < k + WRAP
  {
    if k > 0 {
      DueAhead(initial, period, k - 1);
    }
  }

  /** The wrapping tick tells the due call apart from every other call that can come up before it. */
  lemma {:induction false} NextTickIsDue(initial: nat, timeout: nat, k: nat)
    requires initial < WRAP && timeout < WRAP
    ensures NextTick(initial, timeout, k) == Due(initial, Period(timeout), k) % WRAP
  {
    if k > 0 {
      var d := Due(initial, Period(timeout), k - 1);
      NextTickIsDue(initial, timeout, k - 1);
      DueAhead(initial, Period(timeout), k - 1);
      if d == k - 1 {
        WrappedSum(d, timeout);
      } else {
        DifferentTicks(k - 1, d);
      }
    }
  }

  /** The due call is a whole number of periods after the first, and the one before it is past. */
  lemma {:induction false} DueIsPeriodic(initial: nat, period: nat, k: nat) returns (q: nat)
    ensures Periodic(initial, period, q, Due(initial, period, k))
    ensures q == 0 || Due(initial, period, k) - period < k
  {
    if k == 0 {
      q := 0;
    } else {
      q := DueIsPeriodic(initial, period, k - 1);
      var d := Due(initial, period, k - 1);
      if d == k - 1 {
        OnePeriodOn(initial, period, q, d);
        q := q + 1;
      }
    }
  }

  lemma {:induction false} MoreIsAPeriodMore(a: nat, b: nat, period: nat)
    requires a < b
    ensures a * period + period <= b * period
  {
    if a + 1 < b {
      MoreIsAPeriodMore(a, b - 1, period);
    }
    assert (b - 1) * period + period == b * period;
  }

  lemma SamePeriods(period: nat, q: nat, r: nat)
    requires period > 0 && r * period <= q * period < r * period + period
    ensures q == r
  {
    if q > r {
      MoreIsAPeriodMore(r, q, period);
    } else if r > q {
      MoreIsAPeriodMore(q, r, period);
    }
  }

  /** A client runs on call k exactly when k is its initial timeout plus a whole number of periods, for every
      number of calls and across wrap-around of the tick. */
  lemma RunsExactlyPeriodically(initial: nat, timeout: nat, k: nat)
    requires initial < WRAP && timeout < WRAP
    ensures NextTick(initial, timeout, k) == k % WRAP <==> RunsOn(initial, timeout, k)
  {
    var period := Period(timeout);
    var due := Due(initial, period, k);
    var q := DueIsPeriodic(initial, period, k);
    DueAhead(initial, period, k);
    NextTickIsDue(initial, timeout, k);
    if due == k {
      assert Periodic(initial, period, q, k);
    } else {
      DifferentTicks(k, due);
    }
    if r :| Periodic(initial, period, r, k) {
      assert r * period >= 0;
      if q > 0 {
        SamePeriods(period, q, r);
      }
    }
  }

  /** What one call does to a client at the given tick. */
  function Served(c: Client, tick: nat): Client {
    if c.nextTick == tick then c.(nextTick := (tick + c.timeout) % WRAP) else c
  }

  ghost predicate InStep(c: Client, calls: nat) {
    c.initialTimeout < WRAP && c.timeout < WRAP && c.nextTick == NextTick(c.initialTimeout, c.timeout, calls)
  }

  lemma ServedInStep(c: Client, calls: nat)
    requires InStep(c, calls)
    ensures InStep(Served(c, calls % WRAP), calls + 1)
    ensures c.nextTick == calls % WRAP <==> RunsOn(c.initialTimeout, c.timeout, calls)
  {
    RunsExactlyPeriodically(c.initialTimeout, c.timeout, calls);
  }

  ghost predicate AllInStep(cs: seq<Client>, calls: nat) {
    forall i :: 0 <= i < |cs| ==> InStep(cs[i], calls)
  }

  /** Exactly the clients whose period has come round ran, and all are in step for the next call. */
  ghost predicate RanOnTime(cs: seq<Client>, ran: seq<bool>, calls: nat) {
    |ran| == |cs| && forall i :: 0 <= i < |cs| && cs[i].timeout < WRAP ==>
      (ran[i] <==> RunsOn(cs[i].initialTimeout, cs[i].timeout, calls))
  }

  lemma AllServed(before: seq<Client>, after: seq<Client>, ran: seq<bool>, calls: nat)
    requires |before| == |after| == |ran| && AllInStep(before, calls)
    requires forall j :: 0 <= j < |before| ==>
               ran[j] == (before[j].nextTick == calls % WRAP) && after[j] == Served(before[j], calls % WRAP)
    ensures AllInStep(after, calls + 1) && RanOnTime(after, ran, calls)
  {
    forall j | 0 <= j < |after|
      ensures InStep(after[j], calls + 1)
      ensures ran[j] <==> RunsOn(after[j].initialTimeout, after[j].timeout, calls) {
      ServedInStep(before[j], calls);
    }
  }

  class EmTimer {
    const clients: array<Client>
    var tick: nat
    ghost var calls: nat

    ghost predicate Valid()
      reads this, clients
    {
      tick == calls % WRAP && AllInStep(clients[..], calls)
    }

    /** Registration sets the next tick of every client to its initial timeout. */
    constructor (timeouts: seq<(nat, nat)>)
      requires forall i :: 0 <= i < |timeouts| ==> timeouts[i].0 < WRAP && timeouts[i].1 < WRAP
      ensures Valid() && calls == 0 && fresh(clients) && clients.Length == |timeouts|
      ensures forall i :: 0 <= i < |timeouts| ==>
                clients[i].initialTimeout == timeouts[i].0 && clients[i].timeout == timeouts[i].1
    {
      clients := new Client[|timeouts|](
        i requires 0 <= i < |timeouts| => Client(timeouts[i].0, timeouts[i].1, timeouts[i].0));
      tick, calls := 0, 0;
    }

    method TbsTimeout() returns (ran: seq<bool>)
      requires Valid()
      modifies this, clients
      ensures Valid() && calls == old(calls) + 1
      ensures forall i :: 0 <= i < clients.Length ==> clients[i] == old(clients[i]).(nextTick := clients[i].nextTick)
      ensures RanOnTime(clients[..], ran, old(calls))
    {
      ran := ServeClients();
      AllServed(old(clients[..]), clients[..], ran, calls);
      TickAdvances(calls);
      tick := (tick + 1) % WRAP;
      calls := calls + 1;
    }

    /** The loop over the clients at the current tick. */
    method ServeClients() returns (ran: seq<bool>)
      modifies clients
      ensures |ran| == clients.Length
      ensures forall j :: 0 <= j < clients.Length ==>
                ran[j] == (old(clients[j]).nextTick == tick) && clients[j] == Served(old(clients[j]), tick)
    {
      ran := [];
      var i := 0;
      while i < clients.Length
        invariant 0 <= i <= clients.Length && |ran| == i
        invariant forall j :: 0 <= j < i ==>
                    ran[j] == (old(clients[j]).nextTick == tick) && clients[j] == Served(old(clients[j]), tick)
        invariant forall j :: i <= j < clients.Length ==> clients[j] == old(clients[j])
      {
        var c := clients[i];
        ran := ran + [c.nextTick == tick];
        if c.nextTick == tick {
          clients[i] := c.(nextTick := (tick + c.timeout) % WRAP);
        }
        i := i + 1;
      }
    }
  }
}
