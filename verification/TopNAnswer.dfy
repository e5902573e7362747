/** Which value is reported while at most `steadySize` distinct values are sampled: the slots fill up in the order in
    which values are first sampled, so among the values of greatest credit the one sampled first is reported. */
module TopNAnswer {
  import opened TopNValue
  import opened TopNExact

  /** The sampled values in the order of their first sample. */
  ghost function FirstSampled(h: seq<Event>): seq<nat> {
    if h == [] then [] else
      var vs, e := FirstSampled(h[..|h| - 1]), h[|h| - 1];
      if e.Sample? && e.value !in vs then vs + [e.value] else vs
  }

  lemma FirstSampledStep(h: seq<Event>, e: Event)
    ensures var vs := FirstSampled(h);
            FirstSampled(h + [e]) == if e.Sample? && e.value !in vs then vs + [e.value] else vs
  {
    assert (h + [e])[..|h|] == h;
  }

  lemma {:induction false} FirstSampledValues(h: seq<Event>)
    ensures forall v :: v in FirstSampled(h) <==> v in Values(h)
    ensures forall i, j :: 0 <= i < j < |FirstSampled(h)| ==> FirstSampled(h)[i] != FirstSampled(h)[j]
    ensures |FirstSampled(h)| == |Values(h)|
  {
    if h != [] {
      FirstSampledValues(h[..|h| - 1]);
    }
  }

  // ---------------------------------------------------------------------------------------------
  // The slots in order
  // ---------------------------------------------------------------------------------------------

  /** The first slots hold the values `vs`, live and in order; the others are free. */
  ghost predicate InOrder(t: seq<Entry>, vs: seq<nat>) {
    && |vs| <= |t|
    && (forall i :: 0 <= i < |vs| ==> t[i].value == vs[i] && t[i].freq > 0)
    && (forall i :: |vs| <= i < |t| ==> t[i].freq == 0)
  }

  ghost predicate DistinctValues(vs: seq<nat>) { forall i, j :: 0 <= i < j < |vs| ==> vs[i] != vs[j] }

  lemma InOrderFind(t: seq<Entry>, vs: seq<nat>, i: nat)
    requires InOrder(t, vs) && DistinctValues(vs) && i < |vs|
    ensures FindValue(t, vs[i]) == i
  {
  }

  lemma InOrderBump(t: seq<Entry>, vs: seq<nat>, v: nat, times: nat)
    requires t != [] && InOrder(t, vs) && DistinctValues(vs) && v in vs
    ensures InOrder(InsertFirstN(Exact, t, v, times), vs)
  {
    var i :| 0 <= i < |vs| && vs[i] == v;
    InOrderFind(t, vs, i);
  }

  lemma InOrderIdle(t: seq<Entry>, v: nat)
    requires t != []
    ensures InsertFirstN(Exact, t, v, 0) == t
  {
    var i := FindValue(t, v);
    if i >= 0 && t[i].freq != 0 {
      assert t[i := Entry(v, t[i].freq)] == t;
    }
  }

  lemma InOrderAppend(t: seq<Entry>, vs: seq<nat>, v: nat, times: nat)
    requires t != [] && InOrder(t, vs) && v !in vs && |vs| < |t| && times > 0
    ensures InOrder(InsertFirstN(Exact, t, v, times), vs + [v])
  {
    assert t[|vs|].freq == 0 && t[MinIdx(t)].freq == 0;
    assert MinIdx(t) == |vs|;
    assert forall j :: 0 <= j < |vs| ==> t[j].value == vs[j] && vs[j] in vs;
    assert FindValue(t, v) < 0 || |vs| <= FindValue(t, v);
  }

  /** The slots follow the first samples, except that a leading run of 0 waits in the pending count. */
  ghost predicate Follows(p: Profile, h: seq<Event>) {
    || InOrder(p.steady, FirstSampled(h))
    || (FirstSampled(h) == [0] && InOrder(p.steady, []) && p.lastValue == 0 && p.numTimes > 0)
  }

  lemma FlushFollows(p: Profile, h: seq<Event>)
    requires p.steady != [] && Follows(p, h) && (p.numTimes > 0 ==> p.lastValue in FirstSampled(h))
    ensures InOrder(Flush(Exact, FirstN, p).steady, FirstSampled(h))
  {
    FirstSampledValues(h);
    if p.numTimes == 0 {
      InOrderIdle(p.steady, p.lastValue);
    } else if InOrder(p.steady, FirstSampled(h)) {
      InOrderBump(p.steady, FirstSampled(h), p.lastValue, p.numTimes);
    } else {
      InOrderAppend(p.steady, [], 0, p.numTimes);
      assert [] + [0] == FirstSampled(h);
    }
  }

  lemma {:induction false} LastSampleSampled(h: seq<Event>)
    ensures FirstSampled(h) != [] ==> LastSample(h) in FirstSampled(h)
    ensures FirstSampled(h) == [] ==> LastSample(h) == 0
  {
    if h != [] {
      LastSampleSampled(h[..|h| - 1]);
    }
  }

  /** A pending count belongs to a sampled value. */
  lemma PendingIsSampled(p: Profile, h: seq<Event>)
    requires Exactly(p, h)
    ensures p.numTimes > 0 ==> p.lastValue in FirstSampled(h)
    ensures p.lastValue in FirstSampled(h) || h == [] || FirstSampled(h) == []
  {
    FirstSampledValues(h);
    assert TableFreq(p.steady, p.lastValue) + Pending(p, p.lastValue) == Credit(h, p.lastValue);
    CreditIffSampled(h, p.lastValue);
    LastSampleSampled(h);
  }

  lemma StartFollows(p: Profile, h: seq<Event>, v: nat)
    requires Exactly(p, h) && Follows(p, h) && Few(|p.steady|, h + [Sample(v)])
    ensures InOrder(StartRun(Exact, FirstN, p, v).steady, FirstSampled(h + [Sample(v)]))
  {
    var vs, t := FirstSampled(h), Flush(Exact, FirstN, p).steady;
    PendingIsSampled(p, h);
    FlushFollows(p, h);
    FirstSampledStep(h, Sample(v));
    FirstSampledValues(h);
    if v in vs {
      InOrderBump(t, vs, v, 1);
    } else {
      FirstSampledValues(h + [Sample(v)]);
      InOrderAppend(t, vs, v, 1);
    }
  }

  lemma CountFollows(p: Profile, h: seq<Event>, v: nat)
    requires Exactly(p, h) && Follows(p, h) && Few(|p.steady|, h + [Sample(v)])
    ensures Follows(Count(Exact, FirstN, p, v), h + [Sample(v)])
  {
    FirstSampledStep(h, Sample(v));
    LastSampleSampled(h);
    if v == p.lastValue {
      if FirstSampled(h) == [] {
        assert FirstSampled(h + [Sample(v)]) == [0];
      }
    } else {
      StartFollows(p, h, v);
    }
  }

  lemma {:induction false} RunFollows(n: nat, c: nat, h: seq<Event>)
    requires n >= 1 && Few(n, h)
    ensures Follows(Run(Exact, Config(FirstN, n, c), h), h)
  {
    if h != [] {
      var g, e := h[..|h| - 1], h[|h| - 1];
      assert h == g + [e];
      ValuesStep(g, e);
      RunFollows(n, c, g);
      RunExactly(n, c, g);
      var p := Run(Exact, Config(FirstN, n, c), g);
      match e
      case Sample(v) => CountFollows(p, g, v);
      case GetResult =>
        PendingIsSampled(p, g);
        FlushFollows(p, g);
        FirstSampledStep(g, e);
    }
  }

  // ---------------------------------------------------------------------------------------------
  // The reported value
  // ---------------------------------------------------------------------------------------------

  /** `r` has the greatest credit of the values sampled in `h` and was sampled before all others of that credit; 0 when
      nothing was sampled. */
  ghost predicate FirstOfGreatestCredit(h: seq<Event>, r: nat) {
    var vs := FirstSampled(h);
    if vs == [] then r == 0 else
      exists k :: 0 <= k < |vs| && vs[k] == r
        && (forall i :: 0 <= i < |vs| ==> Credit(h, vs[i]) <= Credit(h, r))
        && (forall i :: 0 <= i < k ==> Credit(h, vs[i]) < Credit(h, r))
  }

  lemma FirstOfGreatestCreditUnique(h: seq<Event>, r: nat, r': nat)
    requires FirstOfGreatestCredit(h, r) && FirstOfGreatestCredit(h, r')
    ensures r == r'
  {
  }

  lemma MaxInOrder(t: seq<Entry>, h: seq<Event>)
    requires t != [] && FirstLive(t) && InOrder(t, FirstSampled(h)) && forall u :: TableFreq(t, u) == Credit(h, u)
    ensures FirstOfGreatestCredit(h, FindMax(t))
  {
    var vs := FirstSampled(h);
    forall i | 0 <= i < |vs| ensures t[i].freq == Credit(h, vs[i]) { LiveFreq(t, i); }
    if vs != [] {
      assert t[0].freq <= t[MaxIdx(t)].freq;
      assert MaxIdx(t) < |vs|;
    }
  }

  lemma FirstNReports(n: nat, c: nat, h: seq<Event>)
    requires n >= 1 && Few(n, h)
    ensures FirstOfGreatestCredit(h, Answer(Exact, Config(FirstN, n, c), h))
  {
    var p := Run(Exact, Config(FirstN, n, c), h);
    RunExactly(n, c, h);
    RunFollows(n, c, h);
    PendingIsSampled(p, h);
    FlushFollows(p, h);
    FlushExactly(p, h);
    var q := Flush(Exact, FirstN, p);
    assert forall u :: TableFreq(q.steady, u) + Pending(q, u) == Credit(h, u);
    MaxInOrder(q.steady, h);
  }

  /** For both managers: the answer is the first sampled of the values of greatest credit. */
  lemma AnswerIsFirstOfGreatestCredit(cfg: Config, h: seq<Event>)
    requires cfg.Ok() && Few(cfg.steadySize, h)
    ensures FirstOfGreatestCredit(h, Answer(Exact, cfg, h))
  {
    if cfg.mgr.Divided? {
      AnswerMirrors(cfg, h);
      FirstNReports(cfg.steadySize, 0, h);
    } else {
      FirstNReports(cfg.steadySize, cfg.clearSize, h);
    }
  }

  ghost predicate MostFrequent(h: seq<Event>, r: nat) {
    forall v :: Occurrences(h, v) <= Occurrences(h, r)
  }

  /** Exactly when a most frequent value is reported: a condition on the history alone. */
  lemma MostFrequentIff(cfg: Config, h: seq<Event>)
    requires cfg.Ok() && Few(cfg.steadySize, h)
    ensures MostFrequent(h, Answer(Exact, cfg, h)) <==>
            exists r :: FirstOfGreatestCredit(h, r) && MostFrequent(h, r)
  {
    var a := Answer(Exact, cfg, h);
    AnswerIsFirstOfGreatestCredit(cfg, h);
    if r :| FirstOfGreatestCredit(h, r) && MostFrequent(h, r) {
      FirstOfGreatestCreditUnique(h, r, a);
    }
  }
}
