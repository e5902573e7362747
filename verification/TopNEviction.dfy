/** Who gets into a full table: what an insertion does slot by slot, and what a long run is sure of. Nothing here is
    said through the search for the least slot or the replacement in it. */
module TopNEviction {
  import opened TopNValue
  import opened TopNExact

  // ---------------------------------------------------------------------------------------------
  // One insertion
  // ---------------------------------------------------------------------------------------------

  /** The first of the slots with the least frequency. */
  ghost predicate FirstLeast(t: seq<Entry>, k: int) {
    && 0 <= k < |t|
    && (forall j :: 0 <= j < |t| ==> t[k].freq <= t[j].freq)
    && (forall j :: 0 <= j < k ==> t[k].freq < t[j].freq)
  }

  ghost predicate SomeBelow(t: seq<Entry>, f: nat) {
    exists j :: 0 <= j < |t| && t[j].freq < f
  }

  /** `e` competes for a place in `t`: if some slot has a lower frequency, `e` takes the first least one. */
  ghost predicate Competes(t: seq<Entry>, e: Entry, r: seq<Entry>) {
    if SomeBelow(t, e.freq) then exists k :: FirstLeast(t, k) && r == t[k := e] else r == t
  }

  lemma PutCompetes(t: seq<Entry>, e: Entry)
    requires t != []
    ensures Competes(t, e, PutIfMore(t, e))
  {
    assert FirstLeast(t, MinIdx(t));
  }

  /** The live slot of `v` is counted up, nothing else changes. */
  ghost predicate CountedIn(w: Width, t: seq<Entry>, v: nat, times: nat, r: seq<Entry>) {
    exists j :: 0 <= j < |t| && t[j].value == v && t[j].freq > 0 && r == t[j := Entry(v, Plus(w, t[j].freq, times))]
  }

  lemma CompetitorEnters(t: seq<Entry>, e: Entry, r: seq<Entry>)
    requires Competes(t, e, r) && SomeBelow(t, e.freq)
    ensures e in r
  {
    var k :| FirstLeast(t, k) && r == t[k := e];
    assert r[k] == e;
  }

  lemma CompetitionCosts(t: seq<Entry>, e: Entry, r: seq<Entry>) returns (k: int)
    requires t != [] && Competes(t, e, r)
    ensures FirstLeast(t, k) && |r| == |t| && forall j :: 0 <= j < |t| && j != k ==> r[j] == t[j]
  {
    if SomeBelow(t, e.freq) {
      k :| FirstLeast(t, k) && r == t[k := e];
    } else {
      k := MinIdx(t);
    }
  }

  /** In a FirstN table a live value is counted up in its slot; any other value competes for a place. */
  lemma FirstNInsertion(w: Width, t: seq<Entry>, v: nat, times: nat)
    requires t != [] && FirstLive(t)
    ensures var r := InsertFirstN(w, t, v, times);
            if Live(t, v)
            then CountedIn(w, t, v, times, r)
            else Competes(t, Entry(v, times), r)
  {
    LiveIsFirst(t, v);
    if !Live(t, v) { PutCompetes(t, Entry(v, times)); }
  }

  /** A newcomer gets in if and only if some slot has a lower frequency than its own, and it costs at most one slot,
      one of least frequency. */
  lemma NewcomerEntersIff(w: Width, t: seq<Entry>, v: nat, times: nat)
    requires t != [] && FirstLive(t) && !Live(t, v)
    ensures var r := InsertFirstN(w, t, v, times);
            && (Live(r, v) <==> SomeBelow(t, times))
            && exists k :: FirstLeast(t, k) && forall j :: 0 <= j < |t| && j != k ==> r[j] == t[j]
  {
    var r := InsertFirstN(w, t, v, times);
    FirstNInsertion(w, t, v, times);
    if SomeBelow(t, times) { CompetitorEnters(t, Entry(v, times), r); }
    var k := CompetitionCosts(t, Entry(v, times), r);
  }

  /** The clear part once the value has left its slot there, if it had one. */
  ghost function Vacated(clear: seq<Entry>, v: nat): seq<Entry> {
    if FindValue(clear, v) < 0 then clear else clear[FindValue(clear, v) := Entry(v, 0)]
  }

  /** A value that is not live in the steady part beats some steady slot, with what it has in the clear part added:
      it takes the first least steady slot, and the entry it ousts competes for the clear part. */
  ghost predicate Promoted(steady: seq<Entry>, clear: seq<Entry>, v: nat, f: nat, s: seq<Entry>, c: seq<Entry>) {
    exists k :: FirstLeast(steady, k) && s == steady[k := Entry(v, f)] && Competes(Vacated(clear, v), steady[k], c)
  }

  /** It beats none: it is counted in its clear slot, or competes for one. */
  ghost predicate StaysClear(clear: seq<Entry>, v: nat, f: nat, times: nat, c: seq<Entry>) {
    if FindValue(clear, v) < 0 then Competes(clear, Entry(v, times), c)
    else c == clear[FindValue(clear, v) := Entry(v, f)]
  }

  lemma PromotionIs(w: Width, steady: seq<Entry>, clear: seq<Entry>, v: nat, times: nat, f: nat)
    requires steady != [] && clear != [] && FirstLive(steady) && !Live(steady, v)
    requires f == (if FindValue(clear, v) < 0 then times else Plus(w, TableFreq(clear, v), times))
    requires SomeBelow(steady, f)
    ensures var r := InsertDivided(w, steady, clear, v, times); Promoted(steady, clear, v, f, r.0, r.1)
  {
    var k := MinIdx(steady);
    LiveIsFirst(steady, v);
    assert FirstLeast(steady, k) && f > steady[k].freq;
    PutCompetes(Vacated(clear, v), steady[k]);
  }

  lemma StayingIs(w: Width, steady: seq<Entry>, clear: seq<Entry>, v: nat, times: nat, f: nat)
    requires steady != [] && clear != [] && FirstLive(steady) && !Live(steady, v)
    requires f == (if FindValue(clear, v) < 0 then times else Plus(w, TableFreq(clear, v), times))
    requires !SomeBelow(steady, f)
    ensures var r := InsertDivided(w, steady, clear, v, times);
            r.0 == steady && StaysClear(clear, v, f, times, r.1)
  {
    LiveIsFirst(steady, v);
    assert f <= steady[MinIdx(steady)].freq;
    PutCompetes(clear, Entry(v, times));
  }

  lemma SteadyCountIs(w: Width, steady: seq<Entry>, clear: seq<Entry>, v: nat, times: nat)
    requires steady != [] && clear != [] && FirstLive(steady) && Live(steady, v)
    ensures var r := InsertDivided(w, steady, clear, v, times);
            r.1 == clear && CountedIn(w, steady, v, times, r.0)
  {
    LiveIsFirst(steady, v);
  }

  /** The whole Divided insertion: counted if live in the steady part, else promoted if its count beats some steady
      slot, else counted in the clear part. */
  lemma DividedInsertion(w: Width, steady: seq<Entry>, clear: seq<Entry>, v: nat, times: nat)
    requires steady != [] && clear != [] && FirstLive(steady)
    ensures var r := InsertDivided(w, steady, clear, v, times);
            var f := if FindValue(clear, v) < 0 then times else Plus(w, TableFreq(clear, v), times);
            if Live(steady, v) then
              r.1 == clear && CountedIn(w, steady, v, times, r.0)
            else if SomeBelow(steady, f) then Promoted(steady, clear, v, f, r.0, r.1)
            else r.0 == steady && StaysClear(clear, v, f, times, r.1)
  {
    var f := if FindValue(clear, v) < 0 then times else Plus(w, TableFreq(clear, v), times);
    if Live(steady, v) {
      SteadyCountIs(w, steady, clear, v, times);
    } else if SomeBelow(steady, f) {
      PromotionIs(w, steady, clear, v, times, f);
    } else {
      StayingIs(w, steady, clear, v, times, f);
    }
  }

  /** A value that comes out of the clear part swaps places: the live entry it ousts is live in the clear part. */
  lemma OustedIsKept(w: Width, steady: seq<Entry>, clear: seq<Entry>, v: nat, times: nat)
    requires steady != [] && clear != [] && FirstLive(steady) && !Live(steady, v) && FindValue(clear, v) >= 0
    requires SomeBelow(steady, Plus(w, TableFreq(clear, v), times))
    ensures var r := InsertDivided(w, steady, clear, v, times);
            exists k :: FirstLeast(steady, k) && r.0[k].value == v && (steady[k].freq > 0 ==> steady[k] in r.1)
  {
    var r, f := InsertDivided(w, steady, clear, v, times), Plus(w, TableFreq(clear, v), times);
    PromotionIs(w, steady, clear, v, times, f);
    var k :| FirstLeast(steady, k) && r.0 == steady[k := Entry(v, f)] && Competes(Vacated(clear, v), steady[k], r.1);
    if steady[k].freq > 0 {
      assert Vacated(clear, v)[FindValue(clear, v)].freq < steady[k].freq;
      CompetitorEnters(Vacated(clear, v), steady[k], r.1);
    }
  }

  // ---------------------------------------------------------------------------------------------
  // What a run of equal samples is sure of
  // ---------------------------------------------------------------------------------------------

  ghost predicate SomeReaches(t: seq<Entry>, k: nat) {
    exists j :: 0 <= j < |t| && t[j].freq >= k
  }

  lemma InsertReaches(mgr: Manager, p: Profile, v: nat, times: nat)
    requires Sized(mgr, p)
    ensures SomeReaches(Insert(Exact, mgr, p, v, times).steady, times)
  {
    var r := Insert(Exact, mgr, p, v, times).steady;
    var i, k := FindValue(p.steady, v), MinIdx(p.steady);
    if i >= 0 && p.steady[i].freq != 0 {
      assert r[i].freq >= times;
    } else {
      assert r[k].freq >= times;
    }
  }

  lemma ReachesStays(t: seq<Entry>, r: seq<Entry>, k: nat)
    requires NoSlotLower(t, r) && SomeReaches(t, k)
    ensures SomeReaches(r, k)
  {
    var j :| 0 <= j < |t| && t[j].freq >= k;
    assert r[j].freq >= k;
  }

  function Repeat(v: nat, k: nat): (h: seq<Event>)
    ensures |h| == k
  {
    seq(k, _ => Sample(v))
  }

  lemma RunStep(cfg: Config, h: seq<Event>, e: Event)
    requires cfg.Ok()
    ensures Run(Exact, cfg, h + [e]) == Handle(Exact, cfg.mgr, Run(Exact, cfg, h), e)
  {
    assert (h + [e])[..|h + [e]| - 1] == h;
  }

  /** A run of k equal samples is pending with at least k. */
  lemma {:induction false} RunIsPending(cfg: Config, h: seq<Event>, v: nat, k: nat)
    requires cfg.Ok() && k > 0
    ensures var p := Run(Exact, cfg, h + Repeat(v, k)); p.lastValue == v && p.numTimes >= k
  {
    var g := h + Repeat(v, k - 1);
    assert h + Repeat(v, k) == g + [Sample(v)];
    RunStep(cfg, g, Sample(v));
    if k > 1 {
      RunIsPending(cfg, h, v, k - 1);
    }
  }

  /** What ends a run of v: `getResult` or a sample of another value. */
  predicate Ends(e: Event, v: nat) { e != Sample(v) }

  lemma EndReaches(mgr: Manager, p: Profile, e: Event)
    requires Sized(mgr, p) && Ends(e, p.lastValue)
    ensures SomeReaches(Handle(Exact, mgr, p, e).steady, p.numTimes)
  {
    var q := if e.Sample? then Tick(Exact, mgr, p) else p;
    InsertReaches(mgr, q, q.lastValue, q.numTimes);
    if e.Sample? {
      var f := Flush(Exact, mgr, q).(numTimes := 1);
      InsertRaises(mgr, f, e.value, 1);
      ReachesStays(f.steady, Insert(Exact, mgr, f, e.value, 1).steady, q.numTimes);
    }
  }

  /** For both managers and every history, however many values it has: once a run of k equal samples has ended, some
      steady slot has a frequency of at least k, for ever. */
  lemma EndedRunCounts(cfg: Config, h: seq<Event>, v: nat, k: nat, e: Event, more: seq<Event>)
    requires cfg.Ok() && k > 0 && Ends(e, v)
    ensures SomeReaches(Run(Exact, cfg, h + Repeat(v, k) + [e] + more).steady, k)
  {
    var g := h + Repeat(v, k);
    var p, all := Run(Exact, cfg, g), g + [e] + more;
    RunIsPending(cfg, h, v, k);
    RunStep(cfg, g, e);
    EndReaches(cfg.mgr, p, e);
    var j :| 0 <= j < cfg.steadySize && Run(Exact, cfg, g + [e]).steady[j].freq >= p.numTimes;
    assert SomeReaches(Run(Exact, cfg, g + [e]).steady, k);
    assert all[..|g| + 1] == g + [e];
    SteadyNeverDecreases(cfg, all, |g| + 1);
    ReachesStays(Run(Exact, cfg, g + [e]).steady, Run(Exact, cfg, all).steady, k);
  }

  lemma MaxIsDominant(cfg: Config, h: seq<Event>, v: nat, k: nat)
    requires cfg.Ok() && k > 0 && SomeReaches(Run(Exact, cfg, h + [GetResult]).steady, k)
    requires forall u :: u != v ==> Credit(h, u) < k
    ensures Answer(Exact, cfg, h) == v
  {
    var q := Run(Exact, cfg, h + [GetResult]);
    RunStep(cfg, h, GetResult);
    RunCovered(cfg, h + [GetResult]);
    var x := q.steady[MaxIdx(q.steady)];
    assert x.freq >= k && Slot(q, x);
    CreditStep(h, GetResult, x.value);
  }

  lemma AnswerWrapFree(cfg: Config, h: seq<Event>)
    requires cfg.Ok() && |h| + 1 < 0x8000_0000
    ensures Answer(Bits32, cfg, h) == Answer(Exact, cfg, h)
  {
    var g := h + [GetResult];
    WrapFree(cfg, g);
    assert g[..|h|] == h;
    WrapFree(cfg, h);
  }

  /** For both managers and every history, however many values it has: a value with a run longer than what any other
      value is credited with is the one reported. */
  lemma DominantRunIsReported(cfg: Config, h: seq<Event>, v: nat, k: nat, more: seq<Event>)
    requires cfg.Ok() && k > 0 && (more == [] || Ends(more[0], v))
    requires forall u :: u != v ==> Credit(h + Repeat(v, k) + more, u) < k
    ensures var all := h + Repeat(v, k) + more;
            Answer(Exact, cfg, all) == v && (|all| + 1 < 0x8000_0000 ==> Answer(Bits32, cfg, all) == v)
  {
    var g, all := h + Repeat(v, k), h + Repeat(v, k) + more;
    if more == [] {
      assert all + [GetResult] == g + [GetResult] + [];
      EndedRunCounts(cfg, h, v, k, GetResult, []);
    } else {
      assert all + [GetResult] == g + [more[0]] + (more[1..] + [GetResult]);
      EndedRunCounts(cfg, h, v, k, more[0], more[1..] + [GetResult]);
    }
    MaxIsDominant(cfg, all, v, k);
    if |all| + 1 < 0x8000_0000 {
      AnswerWrapFree(cfg, all);
    }
  }
}
