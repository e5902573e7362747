/** When the clear part of a Divided table is cleared, in terms of the number of samples taken. */
module TopNClearing {
  import opened TopNValue

  ghost function Samples(h: seq<Event>): nat {
    if h == [] then 0 else Samples(h[..|h| - 1]) + if h[|h| - 1].Sample? then 1 else 0
  }

  /** `n` is a multiple of `interval`. */
  predicate Multiple(interval: nat, n: nat)
    requires interval > 0
  {
    n == 0 || (n >= interval && Multiple(interval, n - interval))
  }

  /** The sample after `n` others finds the clear part cleared: every `interval` samples, but not at the very first.
      An interval of 0 clears there only. */
  predicate ClearsAfter(interval: nat, n: nat) {
    if interval == 0 then n == 0 else n > 0 && Multiple(interval, n)
  }

  /** All frequencies 0, the values as before. */
  ghost predicate Zeroed(t: seq<Entry>, r: seq<Entry>) {
    |r| == |t| && forall j :: 0 <= j < |t| ==> r[j] == Entry(t[j].value, 0)
  }

  /** The tick after `n` samples: it counts from 1 to the interval, over and over. */
  ghost predicate TickIs(interval: nat, n: nat, tick: nat) {
    if interval == 0 || n == 0 then tick == n
    else 1 <= tick <= interval && tick <= n && Multiple(interval, n - tick)
  }

  lemma {:induction false} BetweenMultiples(interval: nat, m: nat, t: nat)
    requires 0 < t < interval && Multiple(interval, m)
    ensures !Multiple(interval, m + t)
  {
    if m > 0 {
      BetweenMultiples(interval, m - interval, t);
    }
  }

  lemma TickDecides(interval: nat, n: nat, tick: nat)
    requires TickIs(interval, n, tick)
    ensures tick == interval <==> ClearsAfter(interval, n)
  {
    if interval > 0 && n > 0 && tick < interval {
      BetweenMultiples(interval, n - tick, tick);
    }
  }

  lemma TickMoves(interval: nat, n: nat, tick: nat)
    requires TickIs(interval, n, tick)
    ensures TickIs(interval, n + 1, if tick == interval then 1 else tick + 1)
  {
    if interval > 0 && n > 0 {
      TickDecides(interval, n, tick);
    }
  }

  lemma StepTick(mgr: Manager, p: Profile, e: Event)
    requires Sized(mgr, p) && mgr.Divided?
    ensures Handle(Exact, mgr, p, e).tick ==
            if e.GetResult? then p.tick else if p.tick == mgr.clearInterval then 1 else p.tick + 1
  {
  }

  /** The tick on its own. */
  ghost function TickOf(interval: nat, h: seq<Event>): nat {
    if h == [] then 0 else
      var tick := TickOf(interval, h[..|h| - 1]);
      if h[|h| - 1].GetResult? then tick else if tick == interval then 1 else tick + 1
  }

  lemma {:induction false} TickAlone(interval: nat, h: seq<Event>)
    ensures TickIs(interval, Samples(h), TickOf(interval, h))
  {
    if h != [] {
      var g := h[..|h| - 1];
      TickAlone(interval, g);
      TickMoves(interval, Samples(g), TickOf(interval, g));
    }
  }

  lemma {:induction false} RunTick(cfg: Config, h: seq<Event>)
    requires cfg.Ok() && cfg.mgr.Divided?
    ensures Run(Exact, cfg, h).tick == TickOf(cfg.mgr.clearInterval, h)
  {
    if h != [] {
      RunTick(cfg, h[..|h| - 1]);
      StepTick(cfg.mgr, Run(Exact, cfg, h[..|h| - 1]), h[|h| - 1]);
    }
  }

  /** Over every history the tick is fixed by the number of samples. */
  lemma TickOfRun(cfg: Config, h: seq<Event>)
    requires cfg.Ok() && cfg.mgr.Divided?
    ensures TickIs(cfg.mgr.clearInterval, Samples(h), Run(Exact, cfg, h).tick)
  {
    TickAlone(cfg.mgr.clearInterval, h);
    RunTick(cfg, h);
  }

  lemma TickClears(mgr: Manager, p: Profile)
    requires mgr.Divided?
    ensures var q := Tick(Exact, mgr, p);
            && q.steady == p.steady && q.lastValue == p.lastValue && q.numTimes == p.numTimes
            && (if p.tick == mgr.clearInterval then Zeroed(p.clear, q.clear) else q.clear == p.clear)
  {
  }

  /** For every history: the next sample is counted in a profile whose clear part has just been zeroed, if the number
      of samples before it says so, and is untouched otherwise; the rest of the profile is as it was. In 32 bits too,
      for fewer than 2^31 events. */
  lemma ClearsOnSchedule(cfg: Config, h: seq<Event>, v: nat) returns (q: Profile)
    requires cfg.Ok() && cfg.mgr.Divided?
    ensures var p := Run(Exact, cfg, h);
            && q.steady == p.steady && q.lastValue == p.lastValue && q.numTimes == p.numTimes
            && (if ClearsAfter(cfg.mgr.clearInterval, Samples(h)) then Zeroed(p.clear, q.clear) else q.clear == p.clear)
    ensures Run(Exact, cfg, h + [Sample(v)]) == Count(Exact, cfg.mgr, q, v)
    ensures |h| + 1 < 0x8000_0000 ==> Run(Bits32, cfg, h + [Sample(v)]) == Count(Exact, cfg.mgr, q, v)
  {
    var p := Run(Exact, cfg, h);
    q := Tick(Exact, cfg.mgr, p);
    TickClears(cfg.mgr, p);
    TickOfRun(cfg, h);
    TickDecides(cfg.mgr.clearInterval, Samples(h), p.tick);
    assert (h + [Sample(v)])[..|h|] == h;
    if |h| + 1 < 0x8000_0000 {
      WrapFree(cfg, h + [Sample(v)]);
    }
  }

  /** `getResult` clears nothing. */
  lemma ResultKeepsSchedule(cfg: Config, h: seq<Event>)
    requires cfg.Ok()
    ensures Samples(h + [GetResult]) == Samples(h)
    ensures Run(Exact, cfg, h + [GetResult]).tick == Run(Exact, cfg, h).tick
  {
    assert (h + [GetResult])[..|h|] == h;
  }
}
