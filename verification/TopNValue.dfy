/** Top-N-Value tables: the FirstN and Divided managers as functions on table contents.

    Counters are 32 bits wide in the source. Every operation takes the width as a parameter, so that the
    wrap-around arithmetic and the unbounded one are the same definition; `WrapFree` says when they agree. */
module TopNValue {

  datatype Entry = Entry(value: nat, freq: nat)

  datatype Width = Exact | Bits32

  datatype Manager = FirstN | Divided(clearInterval: nat)

  /** The profile of one instruction. */
  datatype Profile = Profile(steady: seq<Entry>, clear: seq<Entry>, lastValue: nat, numTimes: nat, tick: nat)

  datatype Event = Sample(value: nat) | GetResult

  function Plus(w: Width, a: nat, b: nat): nat {
    if w.Exact? then a + b else (a + b) % 0x1_0000_0000
  }

  /** The first slot that holds `v`, or -1. */
  function FindValue(t: seq<Entry>, v: nat): (i: int)
    ensures -1 <= i < |t|
    ensures i >= 0 ==> t[i].value == v
    ensures forall j :: 0 <= j < (if i < 0 then |t| else i) ==> t[j].value != v
  {
    if t == [] then -1
    else if t[0].value == v then 0
    else var i := FindValue(t[1..], v); if i < 0 then -1 else i + 1
  }

  /** The first slot of least frequency. */
  function MinIdx(t: seq<Entry>): (k: nat)
    requires t != []
    ensures k < |t|
    ensures forall j :: 0 <= j < |t| ==> t[k].freq <= t[j].freq
    ensures forall j :: 0 <= j < k ==> t[k].freq < t[j].freq
  {
    var last := |t| - 1;
    if last == 0 then 0 else
      var k := MinIdx(t[..last]);
      if t[last].freq < t[k].freq then last else k
  }

  /** The first slot of greatest frequency. */
  function MaxIdx(t: seq<Entry>): (k: nat)
    requires t != []
    ensures k < |t|
    ensures forall j :: 0 <= j < |t| ==> t[j].freq <= t[k].freq
    ensures forall j :: 0 <= j < k ==> t[j].freq < t[k].freq
  {
    var last := |t| - 1;
    if last == 0 then 0 else
      var k := MaxIdx(t[..last]);
      if t[last].freq > t[k].freq then last else k
  }

  function FindMax(t: seq<Entry>): nat
    requires t != []
  {
    if t[MaxIdx(t)].freq > 0 then t[MaxIdx(t)].value else 0
  }

  /** Overwrite the least frequent slot if `e` beats it. */
  function PutIfMore(t: seq<Entry>, e: Entry): (r: seq<Entry>)
    requires t != []
    ensures |r| == |t|
  {
    var k := MinIdx(t);
    if e.freq > t[k].freq then t[k := e] else t
  }

  function InsertFirstN(w: Width, t: seq<Entry>, v: nat, times: nat): (r: seq<Entry>)
    requires t != []
    ensures |r| == |t|
  {
    var i := FindValue(t, v);
    if i >= 0 && t[i].freq != 0 then t[i := Entry(v, Plus(w, t[i].freq, times))]
    else PutIfMore(t, Entry(v, times))
  }

  function InsertDivided(w: Width, steady: seq<Entry>, clear: seq<Entry>, v: nat, times: nat)
    : (r: (seq<Entry>, seq<Entry>))
    requires steady != [] && clear != []
    ensures |r.0| == |steady| && |r.1| == |clear|
  {
    var i, c, k := FindValue(steady, v), FindValue(clear, v), MinIdx(steady);
    if i >= 0 && steady[i].freq != 0 then (steady[i := Entry(v, Plus(w, steady[i].freq, times))], clear)
    else if c >= 0 then
      var f := Plus(w, clear[c].freq, times);
      if f > steady[k].freq then
        (steady[k := Entry(v, f)], PutIfMore(clear[c := Entry(v, 0)], steady[k]))
      else (steady, clear[c := Entry(v, f)])
    else if times > steady[k].freq then (steady[k := Entry(v, times)], PutIfMore(clear, steady[k]))
    else (steady, PutIfMore(clear, Entry(v, times)))
  }

  predicate Sized(mgr: Manager, p: Profile) {
    p.steady != [] && (mgr.Divided? ==> p.clear != [])
  }

  function Insert(w: Width, mgr: Manager, p: Profile, v: nat, times: nat): (r: Profile)
    requires Sized(mgr, p)
    ensures |r.steady| == |p.steady| && |r.clear| == |p.clear|
    ensures r.lastValue == p.lastValue && r.numTimes == p.numTimes && r.tick == p.tick
  {
    match mgr
    case FirstN => p.(steady := InsertFirstN(w, p.steady, v, times))
    case Divided(_) =>
      var (steady, clear) := InsertDivided(w, p.steady, p.clear, v, times);
      p.(steady := steady, clear := clear)
  }

  function Flush(w: Width, mgr: Manager, p: Profile): Profile
    requires Sized(mgr, p)
  {
    Insert(w, mgr, p, p.lastValue, p.numTimes).(numTimes := 0)
  }

  function Cleared(t: seq<Entry>): (r: seq<Entry>)
    ensures |r| == |t|
  {
    seq(|t|, i requires 0 <= i < |t| => Entry(t[i].value, 0))
  }

  function Tick(w: Width, mgr: Manager, p: Profile): Profile {
    match mgr
    case FirstN => p
    case Divided(interval) =>
      var q := if p.tick == interval then p.(tick := 0, clear := Cleared(p.clear)) else p;
      q.(tick := Plus(w, q.tick, 1))
  }

  function StartRun(w: Width, mgr: Manager, p: Profile, v: nat): Profile
    requires Sized(mgr, p)
  {
    Insert(w, mgr, Flush(w, mgr, p).(numTimes := 1), v, 1).(lastValue := v)
  }

  function Count(w: Width, mgr: Manager, p: Profile, v: nat): Profile
    requires Sized(mgr, p)
  {
    if v == p.lastValue then p.(numTimes := Plus(w, p.numTimes, 1)) else StartRun(w, mgr, p, v)
  }

  function AddNewValue(w: Width, mgr: Manager, p: Profile, v: nat): Profile
    requires Sized(mgr, p)
  {
    Count(w, mgr, Tick(w, mgr, p), v)
  }

  function Handle(w: Width, mgr: Manager, p: Profile, e: Event): (r: Profile)
    requires Sized(mgr, p)
    ensures |r.steady| == |p.steady| && |r.clear| == |p.clear|
  {
    match e
    case Sample(v) => AddNewValue(w, mgr, p, v)
    case GetResult => Flush(w, mgr, p)
  }

  function Initial(steadySize: nat, clearSize: nat): Profile {
    Profile(seq(steadySize, _ => Entry(0, 0)), seq(clearSize, _ => Entry(0, 0)), 0, 0, 0)
  }

  datatype Config = Config(mgr: Manager, steadySize: nat, clearSize: nat) {
    predicate Ok() { steadySize >= 1 && (mgr.Divided? ==> clearSize >= 1) }
  }

  function Run(w: Width, cfg: Config, h: seq<Event>): (r: Profile)
    requires cfg.Ok()
    ensures |r.steady| == cfg.steadySize && |r.clear| == cfg.clearSize
  {
    if h == [] then Initial(cfg.steadySize, cfg.clearSize)
    else Handle(w, cfg.mgr, Run(w, cfg, h[..|h| - 1]), h[|h| - 1])
  }

  // ---------------------------------------------------------------------------------------------
  // What a history says
  // ---------------------------------------------------------------------------------------------

  ghost function Occurrences(h: seq<Event>, v: nat): nat {
    if h == [] then 0 else Occurrences(h[..|h| - 1], v) + if h[|h| - 1] == Sample(v) then 1 else 0
  }

  ghost function LastSample(h: seq<Event>): nat {
    if h == [] then 0 else if h[|h| - 1].Sample? then h[|h| - 1].value else LastSample(h[..|h| - 1])
  }

  /** The number of runs of `v`; a leading run of 0 does not count, since 0 is the initial last value. */
  ghost function RunStarts(h: seq<Event>, v: nat): nat {
    if h == [] then 0 else
      RunStarts(h[..|h| - 1], v) +
      if h[|h| - 1] == Sample(v) && LastSample(h[..|h| - 1]) != v then 1 else 0
  }

  /** What a value is credited with: its occurrences plus its runs. */
  ghost function Credit(h: seq<Event>, v: nat): nat {
    Occurrences(h, v) + RunStarts(h, v)
  }

  ghost function Pending(p: Profile, v: nat): nat {
    if p.lastValue == v then p.numTimes else 0
  }

  ghost function TableFreq(t: seq<Entry>, v: nat): nat {
    var i := FindValue(t, v);
    if i < 0 then 0 else t[i].freq
  }

  // ---------------------------------------------------------------------------------------------
  // Table invariants
  // ---------------------------------------------------------------------------------------------

  /** A live value does not occur earlier in its part, not even stale. */
  ghost predicate FirstLive(t: seq<Entry>) {
    forall i, j :: 0 <= i < j < |t| && t[j].freq > 0 ==> t[i].value != t[j].value
  }

  ghost predicate Live(t: seq<Entry>, v: nat) {
    exists j :: 0 <= j < |t| && t[j].value == v && t[j].freq > 0
  }

  /** No value is live in both parts, and no clear frequency exceeds a steady one. */
  ghost predicate Split(steady: seq<Entry>, clear: seq<Entry>) {
    && (forall i, j :: 0 <= i < |steady| && 0 <= j < |clear| ==> clear[j].freq <= steady[i].freq)
    && (forall i, j :: 0 <= i < |steady| && 0 <= j < |clear| && steady[i].freq > 0 && clear[j].freq > 0 ==>
          steady[i].value != clear[j].value)
  }

  lemma LiveIsFirst(t: seq<Entry>, v: nat)
    requires FirstLive(t)
    ensures Live(t, v) <==> TableFreq(t, v) > 0
  {
    if Live(t, v) {
      var j :| 0 <= j < |t| && t[j].value == v && t[j].freq > 0;
      assert FindValue(t, v) == j;
    }
  }

  lemma PutKeepsFirstLive(t: seq<Entry>, e: Entry)
    requires t != [] && FirstLive(t) && !Live(t, e.value)
    ensures FirstLive(PutIfMore(t, e))
  {
  }

  lemma BumpKeepsFirstLive(t: seq<Entry>, i: nat, f: nat)
    requires FirstLive(t) && i < |t| && i == FindValue(t, t[i].value)
    ensures FirstLive(t[i := Entry(t[i].value, f)])
  {
  }

  lemma InsertFirstNKeeps(t: seq<Entry>, v: nat, times: nat)
    requires t != [] && FirstLive(t)
    ensures FirstLive(InsertFirstN(Exact, t, v, times))
  {
    LiveIsFirst(t, v);
    if TableFreq(t, v) > 0 {
      BumpKeepsFirstLive(t, FindValue(t, v), t[FindValue(t, v)].freq + times);
    } else {
      PutKeepsFirstLive(t, Entry(v, times));
    }
  }

  ghost predicate TablesOk(steady: seq<Entry>, clear: seq<Entry>) {
    FirstLive(steady) && FirstLive(clear) && Split(steady, clear)
  }

  /** Where each slot of the clear part comes from once `ousted` has competed for it. */
  lemma PutSlot(t: seq<Entry>, e: Entry, j: nat)
    requires j < |t|
    ensures PutIfMore(t, e)[j] == t[j] || (PutIfMore(t, e)[j] == e && e.freq > 0)
  {
  }

  lemma DisplaceSplit(steady: seq<Entry>, clear: seq<Entry>, novel: Entry, i: nat, j: nat)
    requires steady != [] && FirstLive(steady) && Split(steady, clear) && i < |steady| && j < |clear|
    requires !Live(steady, novel.value) && !Live(clear, novel.value)
    requires novel.freq > steady[MinIdx(steady)].freq
    ensures var k := MinIdx(steady);
            var x, y := steady[k := novel][i], PutIfMore(clear, steady[k])[j];
            y.freq <= x.freq && (x.freq > 0 && y.freq > 0 ==> x.value != y.value)
  {
    var k := MinIdx(steady);
    var x, y := steady[k := novel][i], PutIfMore(clear, steady[k])[j];
    PutSlot(clear, steady[k], j);
    assert clear[j].freq <= steady[k].freq <= steady[i].freq;
    if x.freq > 0 && y.freq > 0 && y == steady[k] && i != k {
      assert FirstLive(steady) && x == steady[i] && steady[i].freq > 0;
    }
  }

  /** `novel` displaces the least frequent steady slot, whose old content competes for the clear part. */
  lemma DisplaceKeeps(steady: seq<Entry>, clear: seq<Entry>, novel: Entry)
    requires steady != [] && clear != [] && TablesOk(steady, clear)
    requires !Live(steady, novel.value) && !Live(clear, novel.value)
    requires novel.freq > steady[MinIdx(steady)].freq
    ensures TablesOk(steady[MinIdx(steady) := novel], PutIfMore(clear, steady[MinIdx(steady)]))
  {
    var k := MinIdx(steady);
    var s, c := steady[k := novel], PutIfMore(clear, steady[k]);
    PutKeepsFirstLive(steady, novel);
    if steady[k].freq > 0 {
      assert !Live(clear, steady[k].value);
      PutKeepsFirstLive(clear, steady[k]);
    }
    forall i, j | 0 <= i < |s| && 0 <= j < |c|
      ensures c[j].freq <= s[i].freq && (s[i].freq > 0 && c[j].freq > 0 ==> s[i].value != c[j].value)
    {
      DisplaceSplit(steady, clear, novel, i, j);
    }
  }

  lemma ClearSlotKeeps(steady: seq<Entry>, clear: seq<Entry>, v: nat, f: nat)
    requires steady != [] && TablesOk(steady, clear) && FindValue(clear, v) >= 0
    requires !Live(steady, v) && f <= steady[MinIdx(steady)].freq
    ensures TablesOk(steady, clear[FindValue(clear, v) := Entry(v, f)])
  {
    BumpKeepsFirstLive(clear, FindValue(clear, v), f);
  }

  lemma BumpSteadyKeeps(steady: seq<Entry>, clear: seq<Entry>, i: nat, f: nat)
    requires TablesOk(steady, clear) && i < |steady| && i == FindValue(steady, steady[i].value)
    requires 0 < steady[i].freq <= f
    ensures TablesOk(steady[i := Entry(steady[i].value, f)], clear)
  {
    BumpKeepsFirstLive(steady, i, f);
  }

  lemma PromoteKeeps(steady: seq<Entry>, clear: seq<Entry>, v: nat, f: nat)
    requires steady != [] && TablesOk(steady, clear) && FindValue(clear, v) >= 0
    requires !Live(steady, v) && f > steady[MinIdx(steady)].freq
    ensures var k, c := MinIdx(steady), FindValue(clear, v);
            TablesOk(steady[k := Entry(v, f)], PutIfMore(clear[c := Entry(v, 0)], steady[k]))
  {
    var emptied := clear[FindValue(clear, v) := Entry(v, 0)];
    ClearSlotKeeps(steady, clear, v, 0);
    assert !Live(emptied, v);
    DisplaceKeeps(steady, emptied, Entry(v, f));
  }

  lemma AdmitKeeps(steady: seq<Entry>, clear: seq<Entry>, e: Entry)
    requires steady != [] && clear != [] && TablesOk(steady, clear)
    requires !Live(steady, e.value) && !Live(clear, e.value) && e.freq <= steady[MinIdx(steady)].freq
    ensures TablesOk(steady, PutIfMore(clear, e))
  {
    PutKeepsFirstLive(clear, e);
  }

  lemma NotFoundLive(t: seq<Entry>, v: nat)
    requires FirstLive(t) && (FindValue(t, v) < 0 || t[FindValue(t, v)].freq == 0)
    ensures !Live(t, v)
  {
    LiveIsFirst(t, v);
  }

  lemma FoundSteadyKeeps(steady: seq<Entry>, clear: seq<Entry>, v: nat, times: nat)
    requires steady != [] && clear != [] && TablesOk(steady, clear)
    requires var i := FindValue(steady, v); i >= 0 && steady[i].freq != 0
    ensures var r := InsertDivided(Exact, steady, clear, v, times); TablesOk(r.0, r.1)
  {
    var i := FindValue(steady, v);
    BumpSteadyKeeps(steady, clear, i, steady[i].freq + times);
  }

  /** The value has a clear slot, and its new frequency beats the least steady one, or it does not. */
  lemma FoundClear(steady: seq<Entry>, clear: seq<Entry>, v: nat, times: nat, c: nat, f: nat)
    requires steady != [] && c == FindValue(clear, v) && f == clear[c].freq + times
    requires FindValue(steady, v) < 0 || steady[FindValue(steady, v)].freq == 0
    ensures var k := MinIdx(steady);
            InsertDivided(Exact, steady, clear, v, times) ==
            if f > steady[k].freq then (steady[k := Entry(v, f)], PutIfMore(clear[c := Entry(v, 0)], steady[k]))
            else (steady, clear[c := Entry(v, f)])
  {
  }

  lemma PromotedKeeps(steady: seq<Entry>, clear: seq<Entry>, v: nat, times: nat)
    requires steady != [] && clear != [] && TablesOk(steady, clear) && !Live(steady, v) && FindValue(clear, v) >= 0
    requires FindValue(steady, v) < 0 || steady[FindValue(steady, v)].freq == 0
    requires clear[FindValue(clear, v)].freq + times > steady[MinIdx(steady)].freq
    ensures var r := InsertDivided(Exact, steady, clear, v, times); TablesOk(r.0, r.1)
  {
    var c := FindValue(clear, v);
    var f := clear[c].freq + times;
    FoundClear(steady, clear, v, times, c, f);
    PromoteKeeps(steady, clear, v, f);
  }

  lemma RaisedKeeps(steady: seq<Entry>, clear: seq<Entry>, v: nat, times: nat)
    requires steady != [] && clear != [] && TablesOk(steady, clear) && !Live(steady, v) && FindValue(clear, v) >= 0
    requires FindValue(steady, v) < 0 || steady[FindValue(steady, v)].freq == 0
    requires clear[FindValue(clear, v)].freq + times <= steady[MinIdx(steady)].freq
    ensures var r := InsertDivided(Exact, steady, clear, v, times); TablesOk(r.0, r.1)
  {
    var c := FindValue(clear, v);
    var f := clear[c].freq + times;
    FoundClear(steady, clear, v, times, c, f);
    ClearSlotKeeps(steady, clear, v, f);
  }

  lemma AbsentKeeps(steady: seq<Entry>, clear: seq<Entry>, v: nat, times: nat)
    requires steady != [] && clear != [] && TablesOk(steady, clear)
    requires FindValue(steady, v) < 0 || steady[FindValue(steady, v)].freq == 0
    requires FindValue(clear, v) < 0
    ensures var r := InsertDivided(Exact, steady, clear, v, times); TablesOk(r.0, r.1)
  {
    NotFoundLive(steady, v);
    NotFoundLive(clear, v);
    if times > steady[MinIdx(steady)].freq {
      DisplaceKeeps(steady, clear, Entry(v, times));
    } else {
      AdmitKeeps(steady, clear, Entry(v, times));
    }
  }

  lemma InsertDividedKeeps(steady: seq<Entry>, clear: seq<Entry>, v: nat, times: nat)
    requires steady != [] && clear != [] && TablesOk(steady, clear)
    ensures var r := InsertDivided(Exact, steady, clear, v, times); TablesOk(r.0, r.1)
  {
    var i, c := FindValue(steady, v), FindValue(clear, v);
    if i >= 0 && steady[i].freq != 0 {
      FoundSteadyKeeps(steady, clear, v, times);
    } else {
      NotFoundLive(steady, v);
      if c < 0 {
        AbsentKeeps(steady, clear, v, times);
      } else if clear[c].freq + times > steady[MinIdx(steady)].freq {
        PromotedKeeps(steady, clear, v, times);
      } else {
        RaisedKeeps(steady, clear, v, times);
      }
    }
  }

  ghost predicate Inv(mgr: Manager, p: Profile) {
    Sized(mgr, p) && FirstLive(p.steady) && (mgr.Divided? ==> TablesOk(p.steady, p.clear))
  }

  lemma InsertKeeps(mgr: Manager, p: Profile, v: nat, times: nat)
    requires Inv(mgr, p)
    ensures Inv(mgr, Insert(Exact, mgr, p, v, times))
  {
    match mgr
    case FirstN => InsertFirstNKeeps(p.steady, v, times);
    case Divided(_) => InsertDividedKeeps(p.steady, p.clear, v, times);
  }

  lemma HandleKeeps(mgr: Manager, p: Profile, e: Event)
    requires Inv(mgr, p)
    ensures Inv(mgr, Handle(Exact, mgr, p, e))
  {
    var q := if e.Sample? then Tick(Exact, mgr, p) else p;
    assert Inv(mgr, q);
    InsertKeeps(mgr, q, q.lastValue, q.numTimes);
    if e.Sample? {
      InsertKeeps(mgr, Flush(Exact, mgr, q).(numTimes := 1), e.value, 1);
    }
  }

  lemma {:induction false} RunKeeps(cfg: Config, h: seq<Event>)
    requires cfg.Ok()
    ensures Inv(cfg.mgr, Run(Exact, cfg, h))
  {
    if h != [] {
      RunKeeps(cfg, h[..|h| - 1]);
      HandleKeeps(cfg.mgr, Run(Exact, cfg, h[..|h| - 1]), h[|h| - 1]);
    }
  }

  /** Over every history of the Divided table a value has at most one slot of non-zero frequency in the two
      parts together, and the greatest frequency of the steady part is the greatest of both. */
  lemma DividedTables(cfg: Config, h: seq<Event>)
    requires cfg.Ok() && cfg.mgr.Divided?
    ensures var p := Run(Exact, cfg, h);
            var all := p.steady + p.clear;
            && (forall i, j :: 0 <= i < j < |all| && all[i].freq > 0 && all[j].freq > 0 ==>
                  all[i].value != all[j].value)
            && (forall j :: 0 <= j < |all| ==> all[j].freq <= p.steady[MaxIdx(p.steady)].freq)
            && (forall i, j :: 0 <= i < |p.steady| <= j < |all| ==> all[j].freq <= p.steady[i].freq)
  {
    RunKeeps(cfg, h);
  }

  // ---------------------------------------------------------------------------------------------
  // Accounting
  // ---------------------------------------------------------------------------------------------

  /** Where a slot can come from when `times` of `v` are inserted. */
  ghost predicate Origin(e: Entry, steady: seq<Entry>, clear: seq<Entry>, v: nat, times: nat) {
    || e.freq == 0
    || e in steady
    || e in clear
    || (e.value == v && e.freq == times)
    || (e.value == v && exists y :: (y in steady || y in clear) && y.value == v && e.freq == y.freq + times)
  }

  lemma PutOrigin(t: seq<Entry>, e: Entry, x: Entry)
    requires t != [] && x in PutIfMore(t, e)
    ensures x == e || x in t
  {
  }

  lemma InsertFirstNOrigin(t: seq<Entry>, clear: seq<Entry>, v: nat, times: nat, x: Entry)
    requires t != [] && x in InsertFirstN(Exact, t, v, times)
    ensures Origin(x, t, clear, v, times)
  {
    var i := FindValue(t, v);
    if i >= 0 && t[i].freq != 0 {
      assert t[i] in t;
    } else {
      PutOrigin(t, Entry(v, times), x);
    }
  }

  lemma InsertDividedOrigin(steady: seq<Entry>, clear: seq<Entry>, v: nat, times: nat, x: Entry)
    requires steady != [] && clear != []
    requires var r := InsertDivided(Exact, steady, clear, v, times); x in r.0 || x in r.1
    ensures Origin(x, steady, clear, v, times)
  {
    var i, c, k := FindValue(steady, v), FindValue(clear, v), MinIdx(steady);
    assert i >= 0 ==> steady[i] in steady;
    assert c >= 0 ==> clear[c] in clear;
    assert steady[k] in steady;
    var r := InsertDivided(Exact, steady, clear, v, times);
    if x in r.1 && !(i >= 0 && steady[i].freq != 0) {
      if c >= 0 {
        if clear[c].freq + times > steady[k].freq { PutOrigin(clear[c := Entry(v, 0)], steady[k], x); }
      } else if times > steady[k].freq {
        PutOrigin(clear, steady[k], x);
      } else {
        PutOrigin(clear, Entry(v, times), x);
      }
    }
  }

  ghost predicate Slot(p: Profile, x: Entry) {
    x in p.steady || x in p.clear
  }

  /** Every slot's frequency plus the pending count of its value is covered by the credit of the value. */
  ghost predicate Covered(p: Profile, h: seq<Event>) {
    && p.lastValue == LastSample(h)
    && (forall x :: Slot(p, x) ==> x.freq + Pending(p, x.value) <= Credit(h, x.value))
    && p.numTimes <= Credit(h, p.lastValue)
  }

  lemma InsertOrigin(mgr: Manager, p: Profile, v: nat, times: nat, x: Entry)
    requires Sized(mgr, p) && Slot(Insert(Exact, mgr, p, v, times), x)
    ensures Origin(x, p.steady, p.clear, v, times)
  {
    match mgr
    case FirstN =>
      if x in InsertFirstN(Exact, p.steady, v, times) { InsertFirstNOrigin(p.steady, p.clear, v, times, x); }
    case Divided(_) => InsertDividedOrigin(p.steady, p.clear, v, times, x);
  }

  /** Frequencies after an insertion, in terms of any bound that covers the old ones. */
  lemma InsertBound(mgr: Manager, p: Profile, v: nat, times: nat, x: Entry, bound: nat)
    requires Sized(mgr, p) && Slot(Insert(Exact, mgr, p, v, times), x)
    requires forall y :: Slot(p, y) && y.value == x.value ==> y.freq <= bound
    ensures x.freq <= bound + if x.value == v then times else 0
  {
    InsertOrigin(mgr, p, v, times, x);
    assert x in p.steady || x in p.clear ==> Slot(p, x);
    assert forall y :: (y in p.steady || y in p.clear) ==> Slot(p, y);
  }

  lemma FlushCovered(mgr: Manager, p: Profile, h: seq<Event>)
    requires Sized(mgr, p) && Covered(p, h)
    ensures Covered(Flush(Exact, mgr, p), h)
  {
    var q := Flush(Exact, mgr, p);
    forall x | Slot(q, x) ensures x.freq <= Credit(h, x.value) {
      InsertBound(mgr, p, p.lastValue, p.numTimes, x, Credit(h, x.value) - Pending(p, x.value));
    }
  }

  lemma CreditStep(h: seq<Event>, e: Event, v: nat)
    ensures LastSample(h + [e]) == if e.Sample? then e.value else LastSample(h)
    ensures Credit(h + [e], v) == Credit(h, v) + if e != Sample(v) then 0 else if LastSample(h) == v then 1 else 2
  {
    assert (h + [e])[..|h|] == h;
  }

  lemma CountCovered(mgr: Manager, p: Profile, h: seq<Event>, v: nat)
    requires Sized(mgr, p) && Covered(p, h)
    ensures Covered(Count(Exact, mgr, p, v), h + [Sample(v)])
  {
    var h', q := h + [Sample(v)], Count(Exact, mgr, p, v);
    CreditStep(h, Sample(v), v);
    if v == p.lastValue {
      forall x | Slot(q, x) ensures x.freq + Pending(q, x.value) <= Credit(h', x.value) {
        CreditStep(h, Sample(v), x.value);
        assert Slot(p, x);
      }
    } else {
      FlushCovered(mgr, p, h);
      var f := Flush(Exact, mgr, p).(numTimes := 1);
      forall x | Slot(q, x) ensures x.freq + Pending(q, x.value) <= Credit(h', x.value) {
        CreditStep(h, Sample(v), x.value);
        assert forall y :: Slot(f, y) ==> Slot(Flush(Exact, mgr, p), y);
        InsertBound(mgr, f, v, 1, x, Credit(h, x.value));
      }
    }
  }

  lemma TickCovered(mgr: Manager, p: Profile, h: seq<Event>)
    requires Covered(p, h)
    ensures Covered(Tick(Exact, mgr, p), h)
  {
    var q := Tick(Exact, mgr, p);
    forall x | Slot(q, x) && !Slot(p, x) ensures exists y :: Slot(p, y) && y.value == x.value && x.freq == 0 {
      var j :| 0 <= j < |q.clear| && q.clear[j] == x;
      assert Slot(p, p.clear[j]);
    }
  }

  lemma {:induction false} RunCovered(cfg: Config, h: seq<Event>)
    requires cfg.Ok()
    ensures Covered(Run(Exact, cfg, h), h)
  {
    if h != [] {
      var g, e := h[..|h| - 1], h[|h| - 1];
      var p := Run(Exact, cfg, g);
      assert h == g + [e];
      RunCovered(cfg, g);
      match e
      case Sample(v) =>
        TickCovered(cfg.mgr, p, g);
        CountCovered(cfg.mgr, Tick(Exact, cfg.mgr, p), g, v);
      case GetResult =>
        FlushCovered(cfg.mgr, p, g);
        var q := Flush(Exact, cfg.mgr, p);
        CreditStep(g, e, q.lastValue);
        forall x | Slot(q, x) ensures x.freq + Pending(q, x.value) <= Credit(h, x.value) {
          CreditStep(g, e, x.value);
        }
    }
  }

  lemma {:induction false} CreditAtMostTwice(h: seq<Event>, v: nat)
    ensures RunStarts(h, v) <= Occurrences(h, v) <= |h|
  {
    if h != [] {
      CreditAtMostTwice(h[..|h| - 1], v);
    }
  }

  /** For both managers, over every history: the frequency of a value, in whichever part it sits, plus its
      pending count never exceeds its occurrences plus its runs, hence never twice the number of events. */
  lemma FrequencyBound(cfg: Config, h: seq<Event>, v: nat)
    requires cfg.Ok()
    ensures var p := Run(Exact, cfg, h);
            && TableFreq(p.steady, v) + (if cfg.mgr.Divided? then TableFreq(p.clear, v) else 0) + Pending(p, v)
               <= Credit(h, v)
            && Credit(h, v) <= 2 * Occurrences(h, v) <= 2 * |h|
  {
    var p := Run(Exact, cfg, h);
    RunCovered(cfg, h);
    RunKeeps(cfg, h);
    CreditAtMostTwice(h, v);
    var i, c := FindValue(p.steady, v), FindValue(p.clear, v);
    assert i >= 0 ==> Slot(p, p.steady[i]);
    assert c >= 0 ==> Slot(p, p.clear[c]);
  }

  // ---------------------------------------------------------------------------------------------
  // 32-bit counters
  // ---------------------------------------------------------------------------------------------

  lemma FirstNWrapFree(t: seq<Entry>, v: nat, times: nat)
    requires t != [] && TableFreq(t, v) + times < 0x1_0000_0000
    ensures InsertFirstN(Bits32, t, v, times) == InsertFirstN(Exact, t, v, times)
  {
  }

  lemma DividedWrapFree(steady: seq<Entry>, clear: seq<Entry>, v: nat, times: nat)
    requires steady != [] && clear != []
    requires TableFreq(steady, v) + times < 0x1_0000_0000 && TableFreq(clear, v) + times < 0x1_0000_0000
    ensures InsertDivided(Bits32, steady, clear, v, times) == InsertDivided(Exact, steady, clear, v, times)
  {
  }

  lemma InsertWrapFree(mgr: Manager, p: Profile, v: nat, times: nat)
    requires Sized(mgr, p) && times < 0x1_0000_0000
    requires forall y :: Slot(p, y) && y.value == v ==> y.freq + times < 0x1_0000_0000
    ensures Insert(Bits32, mgr, p, v, times) == Insert(Exact, mgr, p, v, times)
  {
    var i, c := FindValue(p.steady, v), FindValue(p.clear, v);
    assert i >= 0 ==> Slot(p, p.steady[i]);
    assert c >= 0 ==> Slot(p, p.clear[c]);
    match mgr
    case FirstN => FirstNWrapFree(p.steady, v, times);
    case Divided(_) => DividedWrapFree(p.steady, p.clear, v, times);
  }

  lemma FlushWrapFree(mgr: Manager, p: Profile, h: seq<Event>)
    requires Sized(mgr, p) && Covered(p, h) && |h| < 0x8000_0000
    ensures Flush(Bits32, mgr, p) == Flush(Exact, mgr, p)
  {
    CreditAtMostTwice(h, p.lastValue);
    InsertWrapFree(mgr, p, p.lastValue, p.numTimes);
  }

  lemma CountWrapFree(mgr: Manager, p: Profile, h: seq<Event>, v: nat)
    requires Sized(mgr, p) && Covered(p, h) && |h| + 1 < 0x8000_0000
    ensures Count(Bits32, mgr, p, v) == Count(Exact, mgr, p, v)
  {
    CreditAtMostTwice(h, v);
    if v != p.lastValue {
      FlushWrapFree(mgr, p, h);
      FlushCovered(mgr, p, h);
      var f := Flush(Exact, mgr, p).(numTimes := 1);
      assert forall y :: Slot(f, y) ==> Slot(Flush(Exact, mgr, p), y);
      InsertWrapFree(mgr, f, v, 1);
    }
  }

  lemma {:induction false} TickBound(cfg: Config, h: seq<Event>)
    requires cfg.Ok()
    ensures Run(Exact, cfg, h).tick <= |h|
  {
    if h != [] {
      TickBound(cfg, h[..|h| - 1]);
    }
  }

  lemma HandleWrapFree(mgr: Manager, p: Profile, h: seq<Event>, e: Event)
    requires Sized(mgr, p) && Covered(p, h) && p.tick <= |h| && |h| + 1 < 0x8000_0000
    ensures Handle(Bits32, mgr, p, e) == Handle(Exact, mgr, p, e)
  {
    match e
    case Sample(v) =>
      assert Tick(Bits32, mgr, p) == Tick(Exact, mgr, p);
      TickCovered(mgr, p, h);
      CountWrapFree(mgr, Tick(Exact, mgr, p), h, v);
    case GetResult => FlushWrapFree(mgr, p, h);
  }

  /** For fewer than 2^31 events no 32-bit counter wraps: the source's arithmetic is the unbounded one. */
  lemma {:induction false} WrapFree(cfg: Config, h: seq<Event>)
    requires cfg.Ok() && |h| < 0x8000_0000
    ensures Run(Bits32, cfg, h) == Run(Exact, cfg, h)
  {
    if h != [] {
      var g, e := h[..|h| - 1], h[|h| - 1];
      var p := Run(Exact, cfg, g);
      WrapFree(cfg, g);
      RunCovered(cfg, g);
      TickBound(cfg, g);
      HandleWrapFree(cfg.mgr, p, g, e);
    }
  }

  // ---------------------------------------------------------------------------------------------
  // Steady slots never lose frequency
  // ---------------------------------------------------------------------------------------------

  ghost predicate NoSlotLower(t: seq<Entry>, r: seq<Entry>) {
    |t| == |r| && forall i :: 0 <= i < |t| ==> t[i].freq <= r[i].freq
  }

  lemma InsertRaises(mgr: Manager, p: Profile, v: nat, times: nat)
    requires Sized(mgr, p)
    ensures NoSlotLower(p.steady, Insert(Exact, mgr, p, v, times).steady)
  {
    match mgr
    case FirstN =>
    case Divided(_) =>
  }

  lemma HandleRaises(mgr: Manager, p: Profile, e: Event)
    requires Sized(mgr, p)
    ensures NoSlotLower(p.steady, Handle(Exact, mgr, p, e).steady)
  {
    var q := if e.Sample? then Tick(Exact, mgr, p) else p;
    InsertRaises(mgr, q, q.lastValue, q.numTimes);
    if e.Sample? {
      InsertRaises(mgr, Flush(Exact, mgr, q).(numTimes := 1), e.value, 1);
    }
  }

  lemma {:induction false} SteadyNeverDecreases(cfg: Config, h: seq<Event>, k: nat)
    requires cfg.Ok() && k <= |h|
    ensures NoSlotLower(Run(Exact, cfg, h[..k]).steady, Run(Exact, cfg, h).steady)
  {
    if k < |h| {
      var g := h[..|h| - 1];
      assert g[..k] == h[..k];
      SteadyNeverDecreases(cfg, g, k);
      HandleRaises(cfg.mgr, Run(Exact, cfg, g), h[|h| - 1]);
    } else {
      assert h[..k] == h;
    }
  }
}
