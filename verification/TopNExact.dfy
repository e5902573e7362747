/** Top-N-Value tables while at most `steadySize` distinct values are sampled: nothing is ever evicted, the
    counts are exact, the two managers coincide, and the reported value is within a factor of two. */
module TopNExact {
  import opened TopNValue

  ghost function Values(h: seq<Event>): set<nat> {
    if h == [] then {} else Values(h[..|h| - 1]) + if h[|h| - 1].Sample? then {h[|h| - 1].value} else {}
  }

  ghost predicate Few(n: nat, h: seq<Event>) { |Values(h)| <= n }

  lemma {:induction false} CreditIffSampled(h: seq<Event>, v: nat)
    ensures Credit(h, v) > 0 <==> v in Values(h)
    ensures Occurrences(h, v) > 0 <==> v in Values(h)
  {
    if h != [] {
      CreditIffSampled(h[..|h| - 1], v);
    }
  }

  lemma ValuesStep(h: seq<Event>, e: Event)
    ensures Values(h + [e]) == Values(h) + if e.Sample? then {e.value} else {}
    ensures |Values(h)| <= |Values(h + [e])|
  {
    assert (h + [e])[..|h|] == h;
    if e.Sample? && e.value !in Values(h) {
      assert |Values(h) + {e.value}| == |Values(h)| + 1;
    }
  }

  // ---------------------------------------------------------------------------------------------
  // Room for every sampled value
  // ---------------------------------------------------------------------------------------------

  ghost function ValueSet(t: seq<Entry>): set<nat> {
    set i | 0 <= i < |t| :: t[i].value
  }

  lemma {:induction false} AllLiveCardinality(t: seq<Entry>)
    requires FirstLive(t) && forall i :: 0 <= i < |t| ==> t[i].freq > 0
    ensures |ValueSet(t)| == |t|
  {
    if t != [] {
      var last := |t| - 1;
      AllLiveCardinality(t[..last]);
      assert ValueSet(t) == ValueSet(t[..last]) + {t[last].value};
      assert t[last].value !in ValueSet(t[..last]);
    }
  }

  lemma SubsetCardinality(a: set<nat>, b: set<nat>)
    requires a <= b
    ensures |a| <= |b|
  {
    assert b == a + (b - a);
  }

  /** If every live value is among at most |t| values, one of them not live, then some slot is free. */
  lemma Room(t: seq<Entry>, S: set<nat>, v: nat)
    requires t != [] && FirstLive(t) && |S| <= |t| && v in S && TableFreq(t, v) == 0
    requires forall u :: TableFreq(t, u) > 0 ==> u in S
    ensures t[MinIdx(t)].freq == 0
  {
    if t[MinIdx(t)].freq > 0 {
      AllLiveCardinality(t);
      forall u | u in ValueSet(t) ensures u in S - {v} {
        LiveIsFirst(t, u);
      }
      SubsetCardinality(ValueSet(t), S - {v});
      assert false;
    }
  }

  lemma LiveFreq(t: seq<Entry>, j: nat)
    requires FirstLive(t) && j < |t| && t[j].freq > 0
    ensures TableFreq(t, t[j].value) == t[j].freq
  {
    assert FindValue(t, t[j].value) == j;
  }

  lemma PutInFreeSlot(t: seq<Entry>, e: Entry, u: nat)
    requires t != [] && FirstLive(t) && TableFreq(t, e.value) == 0 && t[MinIdx(t)].freq == 0
    ensures TableFreq(PutIfMore(t, e), u) == TableFreq(t, u) + if u == e.value then e.freq else 0
  {
    var k, r := MinIdx(t), PutIfMore(t, e);
    LiveIsFirst(t, e.value);
    PutKeepsFirstLive(t, e);
    LiveIsFirst(t, u);
    LiveIsFirst(r, u);
    if e.freq > 0 {
      assert r[k] == e;
      if u == e.value {
        LiveFreq(r, k);
      } else if Live(t, u) {
        var j :| 0 <= j < |t| && t[j].value == u && t[j].freq > 0;
        assert r[j] == t[j];
        LiveFreq(t, j);
        LiveFreq(r, j);
      }
    }
  }

  /** Inserting `times` of `v` evicts nothing. */
  ghost predicate Fits(t: seq<Entry>, v: nat, times: nat)
    requires t != []
  {
    TableFreq(t, v) > 0 || t[MinIdx(t)].freq == 0 || times == 0
  }

  lemma InsertCountsExactly(t: seq<Entry>, v: nat, times: nat, u: nat)
    requires t != [] && FirstLive(t) && Fits(t, v, times)
    ensures TableFreq(InsertFirstN(Exact, t, v, times), u) == TableFreq(t, u) + if u == v then times else 0
  {
    var i, r := FindValue(t, v), InsertFirstN(Exact, t, v, times);
    if TableFreq(t, v) > 0 {
      assert forall j :: 0 <= j < |t| ==> r[j].value == t[j].value;
      assert FindValue(r, u) == FindValue(t, u);
    } else if t[MinIdx(t)].freq == 0 {
      PutInFreeSlot(t, Entry(v, times), u);
    }
  }

  // ---------------------------------------------------------------------------------------------
  // Exact counts over histories (FirstN)
  // ---------------------------------------------------------------------------------------------

  ghost predicate Exactly(p: Profile, h: seq<Event>) {
    && p.steady != [] && FirstLive(p.steady)
    && p.lastValue == LastSample(h)
    && forall u :: TableFreq(p.steady, u) + Pending(p, u) == Credit(h, u)
  }

  /** The insertion point is there: the value is live already or a slot is free. */
  lemma InsertionFits(t: seq<Entry>, h: seq<Event>, v: nat)
    requires t != [] && FirstLive(t) && v in Values(h) && Few(|t|, h)
    requires forall u :: TableFreq(t, u) <= Credit(h, u)
    ensures TableFreq(t, v) > 0 || t[MinIdx(t)].freq == 0
  {
    if TableFreq(t, v) == 0 {
      forall u | TableFreq(t, u) > 0 ensures u in Values(h) { CreditIffSampled(h, u); }
      Room(t, Values(h), v);
    }
  }

  lemma FlushFits(p: Profile, h: seq<Event>)
    requires Exactly(p, h) && Few(|p.steady|, h)
    ensures Fits(p.steady, p.lastValue, p.numTimes)
  {
    if p.numTimes > 0 {
      assert TableFreq(p.steady, p.lastValue) + Pending(p, p.lastValue) == Credit(h, p.lastValue);
      CreditIffSampled(h, p.lastValue);
      InsertionFits(p.steady, h, p.lastValue);
    }
  }

  lemma FlushExactly(p: Profile, h: seq<Event>)
    requires Exactly(p, h) && Few(|p.steady|, h)
    ensures Exactly(Flush(Exact, FirstN, p), h)
  {
    var q := Flush(Exact, FirstN, p);
    FlushFits(p, h);
    InsertFirstNKeeps(p.steady, p.lastValue, p.numTimes);
    forall u ensures TableFreq(q.steady, u) + Pending(q, u) == Credit(h, u) {
      InsertCountsExactly(p.steady, p.lastValue, p.numTimes, u);
    }
  }

  lemma StartFits(p: Profile, h: seq<Event>, v: nat)
    requires Exactly(p, h) && Few(|p.steady|, h + [Sample(v)])
    ensures Few(|p.steady|, h)
    ensures Fits(Flush(Exact, FirstN, p).steady, v, 1)
  {
    ValuesStep(h, Sample(v));
    FlushExactly(p, h);
    var t := Flush(Exact, FirstN, p).steady;
    forall u ensures TableFreq(t, u) <= Credit(h + [Sample(v)], u) { CreditStep(h, Sample(v), u); }
    InsertionFits(t, h + [Sample(v)], v);
  }

  lemma CountExactly(p: Profile, h: seq<Event>, v: nat)
    requires Exactly(p, h) && Few(|p.steady|, h + [Sample(v)])
    ensures Exactly(Count(Exact, FirstN, p, v), h + [Sample(v)])
  {
    var q, h' := Count(Exact, FirstN, p, v), h + [Sample(v)];
    CreditStep(h, Sample(v), v);
    if v == p.lastValue {
      forall u ensures TableFreq(q.steady, u) + Pending(q, u) == Credit(h', u) { CreditStep(h, Sample(v), u); }
    } else {
      StartFits(p, h, v);
      FlushExactly(p, h);
      var f := Flush(Exact, FirstN, p);
      InsertFirstNKeeps(f.steady, v, 1);
      forall u ensures TableFreq(q.steady, u) + Pending(q, u) == Credit(h', u) {
        CreditStep(h, Sample(v), u);
        InsertCountsExactly(f.steady, v, 1, u);
      }
    }
  }

  lemma InitialExactly(n: nat, c: nat)
    requires n >= 1
    ensures Exactly(Initial(n, c), [])
  {
  }

  /** While at most steadySize values are sampled, table frequency plus pending count is exactly the
      occurrences of the value plus its runs. */
  lemma {:induction false} RunExactly(n: nat, c: nat, h: seq<Event>)
    requires n >= 1 && Few(n, h)
    ensures Exactly(Run(Exact, Config(FirstN, n, c), h), h)
  {
    if h == [] {
      InitialExactly(n, c);
    } else {
      var g, e := h[..|h| - 1], h[|h| - 1];
      assert h == g + [e];
      ValuesStep(g, e);
      RunExactly(n, c, g);
      var p := Run(Exact, Config(FirstN, n, c), g);
      match e
      case Sample(v) => CountExactly(p, g, v);
      case GetResult =>
        FlushExactly(p, g);
        forall u ensures Credit(h, u) == Credit(g, u) { CreditStep(g, e, u); }
        CreditStep(g, e, 0);
    }
  }

  // ---------------------------------------------------------------------------------------------
  // The Divided manager behaves as FirstN
  // ---------------------------------------------------------------------------------------------

  ghost predicate AllZero(t: seq<Entry>) { forall j :: 0 <= j < |t| ==> t[j].freq == 0 }

  /** Same steady table, slot by slot, same pending run, nothing live in the clear part. */
  ghost predicate Mirrors(q: Profile, p: Profile) {
    q.steady == p.steady && q.lastValue == p.lastValue && q.numTimes == p.numTimes && AllZero(q.clear)
  }

  lemma InsertMirrors(steady: seq<Entry>, clear: seq<Entry>, v: nat, times: nat)
    requires steady != [] && clear != [] && AllZero(clear) && FirstLive(steady) && Fits(steady, v, times)
    ensures var r := InsertDivided(Exact, steady, clear, v, times);
            r.0 == InsertFirstN(Exact, steady, v, times) && AllZero(r.1)
  {
  }

  lemma FlushMirrors(d: Manager, q: Profile, p: Profile)
    requires d.Divided? && Mirrors(q, p) && q.clear != [] && p.steady != [] && FirstLive(p.steady)
    requires Fits(p.steady, p.lastValue, p.numTimes)
    ensures Mirrors(Flush(Exact, d, q), Flush(Exact, FirstN, p))
  {
    InsertMirrors(q.steady, q.clear, q.lastValue, q.numTimes);
  }

  lemma CountMirrors(d: Manager, q: Profile, p: Profile, h: seq<Event>, v: nat)
    requires d.Divided? && Mirrors(q, p) && q.clear != []
    requires Exactly(p, h) && Few(|p.steady|, h + [Sample(v)])
    ensures Mirrors(Count(Exact, d, q, v), Count(Exact, FirstN, p, v))
  {
    if v != p.lastValue {
      StartFits(p, h, v);
      FlushFits(p, h);
      FlushMirrors(d, q, p);
      FlushExactly(p, h);
      InsertMirrors(Flush(Exact, d, q).steady, Flush(Exact, d, q).clear, v, 1);
    }
  }

  /** Whatever the clear interval, the Divided manager's steady table is the FirstN manager's table. */
  lemma {:induction false} DividedMirrorsFirstN(n: nat, c: nat, c': nat, interval: nat, h: seq<Event>)
    requires n >= 1 && c >= 1 && Few(n, h)
    ensures Mirrors(Run(Exact, Config(Divided(interval), n, c), h), Run(Exact, Config(FirstN, n, c'), h))
  {
    if h != [] {
      var g, e := h[..|h| - 1], h[|h| - 1];
      assert h == g + [e];
      ValuesStep(g, e);
      DividedMirrorsFirstN(n, c, c', interval, g);
      RunExactly(n, c', g);
      var d := Divided(interval);
      var q, p := Run(Exact, Config(d, n, c), g), Run(Exact, Config(FirstN, n, c'), g);
      match e
      case Sample(v) => CountMirrors(d, Tick(Exact, d, q), p, g, v);
      case GetResult =>
        FlushFits(p, g);
        FlushMirrors(d, q, p);
    }
  }

  // ---------------------------------------------------------------------------------------------
  // The reported value
  // ---------------------------------------------------------------------------------------------

  /** What `getResult` answers after the history: flush, then the maximum of the steady table. */
  function Answer(w: Width, cfg: Config, h: seq<Event>): nat
    requires cfg.Ok()
  {
    FindMax(Flush(w, cfg.mgr, Run(w, cfg, h)).steady)
  }

  lemma FirstNAnswer(n: nat, c: nat, h: seq<Event>, v: nat)
    requires n >= 1 && Few(n, h)
    ensures Credit(h, v) <= Credit(h, Answer(Exact, Config(FirstN, n, c), h))
  {
    var p := Run(Exact, Config(FirstN, n, c), h);
    RunExactly(n, c, h);
    FlushExactly(p, h);
    var t := Flush(Exact, FirstN, p).steady;
    assert TableFreq(t, v) == Credit(h, v);
    if Credit(h, v) > 0 {
      assert t[FindValue(t, v)].freq <= t[MaxIdx(t)].freq;
      LiveFreq(t, MaxIdx(t));
    }
  }

  lemma AnswerMirrors(cfg: Config, h: seq<Event>)
    requires cfg.Ok() && cfg.mgr.Divided? && Few(cfg.steadySize, h)
    ensures Answer(Exact, cfg, h) == Answer(Exact, Config(FirstN, cfg.steadySize, 0), h)
  {
    var n := cfg.steadySize;
    var p := Run(Exact, Config(FirstN, n, 0), h);
    DividedMirrorsFirstN(n, cfg.clearSize, 0, cfg.mgr.clearInterval, h);
    RunExactly(n, 0, h);
    FlushFits(p, h);
    FlushMirrors(cfg.mgr, Run(Exact, cfg, h), p);
  }

  /** For both managers the answer maximises occurrences plus runs, so no value occurs more than twice as often. */
  lemma AnswerMaximisesCredit(cfg: Config, h: seq<Event>, v: nat)
    requires cfg.Ok() && Few(cfg.steadySize, h)
    ensures var r := Answer(Exact, cfg, h);
            Credit(h, v) <= Credit(h, r) && Occurrences(h, v) <= 2 * Occurrences(h, r)
  {
    var r := Answer(Exact, cfg, h);
    if cfg.mgr.Divided? {
      AnswerMirrors(cfg, h);
      FirstNAnswer(cfg.steadySize, 0, h, v);
    } else {
      FirstNAnswer(cfg.steadySize, cfg.clearSize, h, v);
    }
    CreditAtMostTwice(h, r);
  }

  /** k alternating samples of 2 and 3. */
  function Alternating(k: nat): seq<Event> {
    if k == 0 then [] else Alternating(k - 1) + [Sample(2), Sample(3)]
  }

  function ThenOnes(h: seq<Event>, j: nat): seq<Event> {
    if j == 0 then h else ThenOnes(h, j - 1) + [Sample(1)]
  }

  lemma TwoSteps(h: seq<Event>, v: nat)
    requires LastSample(h) != 2
    ensures var h' := h + [Sample(2), Sample(3)];
            && LastSample(h') == 3
            && Occurrences(h', v) == Occurrences(h, v) + (if v == 2 || v == 3 then 1 else 0)
            && RunStarts(h', v) == RunStarts(h, v) + (if v == 2 || v == 3 then 1 else 0)
            && Values(h') == Values(h) + {2, 3}
  {
    var h1 := h + [Sample(2)];
    assert h + [Sample(2), Sample(3)] == h1 + [Sample(3)];
    assert h1[..|h|] == h && (h1 + [Sample(3)])[..|h1|] == h1;
  }

  lemma {:induction false} AlternatingCredit(k: nat, v: nat)
    ensures var h := Alternating(k);
            && (LastSample(h) == if k == 0 then 0 else 3)
            && Occurrences(h, v) == RunStarts(h, v) == (if v == 2 || v == 3 then k else 0)
            && Values(h) <= {2, 3}
  {
    if k > 0 {
      AlternatingCredit(k - 1, v);
      TwoSteps(Alternating(k - 1), v);
    }
  }

  lemma {:induction false} OnesCredit(h: seq<Event>, j: nat, v: nat)
    requires LastSample(h) != 1
    ensures var h' := ThenOnes(h, j);
            && (LastSample(h') == if j == 0 then LastSample(h) else 1)
            && Occurrences(h', v) == Occurrences(h, v) + (if v == 1 then j else 0)
            && RunStarts(h', v) == RunStarts(h, v) + (if v == 1 && j > 0 then 1 else 0)
            && Values(h') <= Values(h) + {1}
  {
    if j > 0 {
      OnesCredit(h, j - 1, v);
      var g := ThenOnes(h, j - 1);
      assert (g + [Sample(1)])[..|g|] == g;
    }
  }

  lemma TightCredit(k: nat, v: nat)
    requires k >= 2
    ensures var h := ThenOnes(Alternating(k), 2 * k - 2);
            && Occurrences(h, v) == (if v == 1 then 2 * k - 2 else if v == 2 || v == 3 then k else 0)
            && Credit(h, v) == (if v == 1 then 2 * k - 1 else if v == 2 || v == 3 then 2 * k else 0)
            && |Values(h)| <= 3
  {
    AlternatingCredit(k, v);
    OnesCredit(Alternating(k), 2 * k - 2, v);
    SubsetCardinality(Values(ThenOnes(Alternating(k), 2 * k - 2)), {1, 2, 3});
  }

  /** The factor of two cannot be improved: the answer can be a value sampled k times while another was
      sampled 2k - 2 times. */
  lemma FactorTwoIsTight(cfg: Config, k: nat)
    requires cfg.Ok() && cfg.steadySize >= 3 && k >= 2
    ensures var h := ThenOnes(Alternating(k), 2 * k - 2);
            var r := Answer(Exact, cfg, h);
            Few(cfg.steadySize, h) && Occurrences(h, r) == k && Occurrences(h, 1) == 2 * k - 2
  {
    var h := ThenOnes(Alternating(k), 2 * k - 2);
    TightCredit(k, 1);
    TightCredit(k, 2);
    TightCredit(k, Answer(Exact, cfg, h));
    AnswerMaximisesCredit(cfg, h, 2);
  }
}
