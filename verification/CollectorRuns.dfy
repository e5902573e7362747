/** Runs of the ASYNC collector: the timer thread works through `onTimeout` in small steps while other threads
    create profiles and raise counters. Class loaders are unloaded between timer calls, each at most once. */
module CollectorRuns {
  import opened Wrappers
  import opened EBProfiles

  /** How far the timer thread is inside `onTimeout`. */
  datatype Timer =
    | Idle
    | Moved                  // new profiles are green
    | Scanning(i: nat)       // the next green slot to check
    | Marked                 // all green slots are checked
    | Reporting(k: nat)      // the next ready profile to report

  datatype State = State(
    newP: seq<Profile>, green: Slots, tmp: seq<Profile>, unloaded: seq<Profile>,   // the collector's vectors
    hot: set<Profile>,                 // profiles with a counter over its threshold
    created: set<Profile>, reported: seq<Profile>, deleted: seq<Profile>, dead: set<nat>,
    timer: Timer,
    due: set<Profile>,                 // hot and loaded when the current call began
    lookupFailed: bool)                // an unloaded profile was not found among the green ones

  datatype Action = Create(p: Profile) | Heat(p: Profile) | Unload(h: nat) | Advance

  function Initial(): State {
    State([], [], [], [], {}, {}, [], [], {}, Idle, {}, false)
  }

  function Begin(s: State): State {
    var all := Live(s.green) + s.newP;
    s.(green := s.green + Somes(s.newP), newP := [], timer := Moved,
       due := set p | p in all && p in s.hot && p.loader !in s.dead)
  }

  predicate AllFound(green: Slots, us: seq<Profile>) {
    Elements(us) <= Elements(Live(green)) && NoDuplicates(us)
  }

  function Clean(s: State): State {
    s.(green := Somes(Rest(Live(s.green), Elements(s.unloaded))),
       unloaded := [], deleted := s.deleted + s.unloaded,
       lookupFailed := s.lookupFailed || !AllFound(s.green, s.unloaded), timer := Scanning(0))
  }

  function Scan(s: State, i: nat): State {
    if i >= |s.green| then s.(timer := Marked)
    else if s.green[i].Some? && s.green[i].value in s.hot then
      s.(tmp := s.tmp + [s.green[i].value], green := s.green[i := None], timer := Scanning(i + 1))
    else s.(timer := Scanning(i + 1))
  }

  function Compact(s: State): State {
    if s.tmp == [] then s.(timer := Idle)
    else
      s.(green := if |s.tmp| <= |s.green| then StdRemove(s.green)[..|s.green| - |s.tmp|] else [],
         timer := Reporting(0))
  }

  function Report(s: State, k: nat): State {
    if k < |s.tmp| then s.(reported := s.reported + [s.tmp[k]], timer := Reporting(k + 1))
    else s.(tmp := [], timer := Idle)
  }

  function Step(s: State, a: Action): State {
    match a
    case Create(p) =>
      if p in s.created || p.loader in s.dead || !p.async then s
      else s.(created := s.created + {p}, newP := s.newP + [p])
    case Heat(p) => s.(hot := s.hot + {p})
    case Unload(h) =>
      if !s.timer.Idle? || h in s.dead then s
      else s.(unloaded := s.unloaded + FromLoader(Live(s.green), h) + FromLoader(s.newP, h), dead := s.dead + {h})
    case Advance =>
      match s.timer
      case Idle => Begin(s)
      case Moved => Clean(s)
      case Scanning(i) => Scan(s, i)
      case Marked => Compact(s)
      case Reporting(k) => Report(s, k)
  }

  function Exec(s: State, acts: seq<Action>): State {
    if acts == [] then s else Step(Exec(s, acts[..|acts| - 1]), acts[|acts| - 1])
  }

  // ---------------------------------------------------------------------------------------------
  // Conservation: every created profile is in exactly one place
  // ---------------------------------------------------------------------------------------------

  /** Marked as ready and not yet reported. */
  function Outstanding(s: State): seq<Profile> {
    if s.timer.Reporting? && s.timer.k <= |s.tmp| then s.tmp[s.timer.k..] else s.tmp
  }

  ghost function Places(s: State): multiset<Profile> {
    multiset(s.newP) + multiset(Live(s.green)) + multiset(Outstanding(s)) + multiset(s.reported) + multiset(s.deleted)
  }

  ghost predicate Conserved(s: State) { Places(s) == multiset(s.created) }

  ghost predicate AllSome(v: Slots) { forall i :: 0 <= i < |v| ==> v[i].Some? }

  ghost predicate Shape(s: State) {
    match s.timer
    case Idle => s.tmp == [] && AllSome(s.green)
    case Moved => s.tmp == [] && AllSome(s.green)
    case Scanning(i) => i <= |s.green| && AllSome(s.green[i..]) && |Live(s.green)| + |s.tmp| == |s.green|
    case Marked => |Live(s.green)| + |s.tmp| == |s.green|
    case Reporting(k) => k <= |s.tmp| && AllSome(s.green)
  }

  ghost predicate Once(s: seq<Profile>) { forall p :: multiset(s)[p] <= 1 }

  ghost predicate Dead(us: seq<Profile>, dead: set<nat>, recent: seq<Profile>, live: seq<Profile>, out: seq<Profile>) {
    forall p :: p in us <==> p.loader in dead && (p in recent || p in live || p in out)
  }

  ghost predicate NoneDead(s: seq<Profile>, dead: set<nat>) {
    forall p :: p in s ==> p.loader !in dead
  }

  /** Exactly the profiles of unloaded loaders await deletion, once each, and they are green or new. */
  ghost predicate Awaiting(s: State) {
    && Once(s.unloaded)
    && Dead(s.unloaded, s.dead, s.newP, Live(s.green), Outstanding(s))
    && (!s.timer.Idle? ==> NoneDead(s.newP, s.dead))
    && (!s.timer.Idle? && !s.timer.Moved? ==> s.unloaded == [])
  }

  ghost predicate DueKept(s: State) {
    match s.timer
    case Idle => forall p :: p in s.due ==> p in s.reported
    case Moved => forall p :: p in s.due ==> p in Live(s.green) && p in s.hot && p.loader !in s.dead
    case Scanning(i) =>
      && i <= |s.green|
      && forall p :: p in s.due ==> p in s.hot && (Some(p) in s.green[i..] || p in s.tmp)
    case Marked => forall p :: p in s.due ==> p in s.tmp
    case Reporting(k) => k <= |s.tmp| && forall p :: p in s.due ==> p in s.reported || p in s.tmp[k..]
  }

  ghost predicate Inv(s: State) {
    Conserved(s) && Shape(s) && Awaiting(s) && DueKept(s) && !s.lookupFailed
  }

  // ---------------------------------------------------------------------------------------------
  // Lemmas on the vectors
  // ---------------------------------------------------------------------------------------------

  lemma {:induction false} AllSomeLive(v: Slots)
    requires AllSome(v)
    ensures |Live(v)| == |v| && Somes(Live(v)) == v
  {
    if v != [] {
      AllSomeLive(v[..|v| - 1]);
    }
  }

  lemma LiveAppend(v: Slots, s: seq<Profile>)
    ensures Live(v + Somes(s)) == Live(v) + s
  {
    LiveConcat(v, Somes(s));
    LiveSomes(s);
  }

  lemma CountLast(s: seq<Profile>, q: Profile, p: Profile)
    ensures multiset(s + [q])[p] == multiset(s)[p] + if p == q then 1 else 0
  {
  }

  lemma {:induction false} RestCount(s: seq<Profile>, H: set<Profile>, p: Profile)
    ensures multiset(Rest(s, H))[p] == if p in H then 0 else multiset(s)[p]
  {
    if s != [] {
      var t, q := s[..|s| - 1], s[|s| - 1];
      RestCount(t, H, p);
      assert s == t + [q];
      CountLast(t, q, p);
      if q in H {
        assert Rest(s, H) == Rest(t, H);
      } else {
        CountLast(Rest(t, H), q, p);
      }
    }
  }

  lemma {:induction false} LoaderCount(s: seq<Profile>, h: nat, p: Profile)
    ensures multiset(FromLoader(s, h))[p] == if p.loader == h then multiset(s)[p] else 0
  {
    if s != [] {
      var t, q := s[..|s| - 1], s[|s| - 1];
      LoaderCount(t, h, p);
      assert s == t + [q];
      CountLast(t, q, p);
      if q.loader == h {
        CountLast(FromLoader(t, h), q, p);
      } else {
        assert FromLoader(s, h) == FromLoader(t, h);
      }
    }
  }

  /** What is removed is what was unloaded, when both are without repetition and one is among the other. */
  lemma RemovedIsUnloaded(s: seq<Profile>, us: seq<Profile>)
    requires Once(s) && Once(us)
    requires Elements(us) <= Elements(s)
    ensures multiset(s) == multiset(Rest(s, Elements(us))) + multiset(us)
  {
    var H := Elements(us);
    forall p ensures multiset(s)[p] == multiset(Rest(s, H))[p] + multiset(us)[p] {
      RestCount(s, H, p);
      assert p in us <==> p in H;
      assert p in us ==> p in Elements(s);
      assert p in s <==> p in multiset(s);
    }
  }

  lemma OnceNoDuplicates(us: seq<Profile>)
    requires Once(us)
    ensures NoDuplicates(us)
  {
    forall i, j | 0 <= i < j < |us| ensures us[i] != us[j] {
      assert us == us[..j] + us[j..];
      assert multiset(us) == multiset(us[..j]) + multiset(us[j..]);
      assert us[i] in us[..j] && us[j] in us[j..];
      assert multiset(us)[us[i]] <= 1;
    }
  }

  // ---------------------------------------------------------------------------------------------
  // Every step keeps the invariant
  // ---------------------------------------------------------------------------------------------

  lemma BeginConserves(s: State)
    requires Conserved(s) && s.timer.Idle?
    ensures Conserved(Begin(s))
  {
    LiveAppend(s.green, s.newP);
    assert multiset(Live(s.green) + s.newP) == multiset(Live(s.green)) + multiset(s.newP);
  }

  lemma BeginAwaiting(s: State)
    requires Shape(s) && Awaiting(s) && s.timer.Idle?
    ensures Awaiting(Begin(s))
  {
    LiveAppend(s.green, s.newP);
    var t := Begin(s);
    assert Outstanding(t) == Outstanding(s) == [];
    assert forall p :: p in Live(t.green) <==> p in Live(s.green) || p in s.newP;
  }

  lemma BeginDue(s: State)
    requires s.timer.Idle?
    ensures DueKept(Begin(s))
  {
    LiveAppend(s.green, s.newP);
  }

  lemma BeginShape(s: State)
    requires Shape(s) && s.timer.Idle?
    ensures Shape(Begin(s))
  {
  }

  lemma BeginKeeps(s: State)
    requires Inv(s) && s.timer.Idle?
    ensures Inv(Begin(s))
  {
    BeginShape(s);
    BeginConserves(s);
    BeginAwaiting(s);
    BeginDue(s);
  }

  lemma UnloadedAreGreen(s: State)
    requires Shape(s) && Awaiting(s) && s.timer.Moved?
    ensures AllFound(s.green, s.unloaded)
  {
    OnceNoDuplicates(s.unloaded);
    assert Outstanding(s) == [];
  }

  lemma GreenOnce(s: State)
    requires Conserved(s)
    ensures Once(Live(s.green))
  {
    assert forall p :: multiset(Live(s.green))[p] <= Places(s)[p];
  }

  lemma CleanConserves(s: State)
    requires Conserved(s) && Shape(s) && Awaiting(s) && s.timer.Moved?
    ensures Conserved(Clean(s))
    ensures Live(Clean(s).green) == Rest(Live(s.green), Elements(s.unloaded))
  {
    UnloadedAreGreen(s);
    GreenOnce(s);
    RemovedIsUnloaded(Live(s.green), s.unloaded);
    LiveSomes(Rest(Live(s.green), Elements(s.unloaded)));
    var t := Clean(s);
    assert multiset(t.deleted) == multiset(s.deleted) + multiset(s.unloaded);
    assert Outstanding(t) == Outstanding(s);
    assert Places(t) == Places(s);
  }

  lemma CleanAwaiting(s: State)
    requires Shape(s) && Awaiting(s) && s.timer.Moved?
    requires Live(Clean(s).green) == Rest(Live(s.green), Elements(s.unloaded))
    ensures Awaiting(Clean(s))
  {
    var t := Clean(s);
    assert Outstanding(t) == Outstanding(s) == [];
    forall p | p in Live(t.green) ensures p in Live(s.green) && p !in s.unloaded {
      RestMembers(Live(s.green), Elements(s.unloaded), p);
    }
  }

  lemma CleanDue(s: State)
    requires Awaiting(s) && DueKept(s) && s.timer.Moved?
    requires Live(Clean(s).green) == Rest(Live(s.green), Elements(s.unloaded))
    ensures DueKept(Clean(s))
  {
    var t := Clean(s);
    assert t.green[0..] == t.green;
    forall p | p in s.due ensures Some(p) in t.green {
      RestMembers(Live(s.green), Elements(s.unloaded), p);
      LiveMembers(t.green, p);
    }
  }

  lemma CleanShape(s: State)
    requires Shape(s) && s.timer.Moved?
    requires Live(Clean(s).green) == Rest(Live(s.green), Elements(s.unloaded))
    ensures Shape(Clean(s))
  {
  }

  lemma CleanKeeps(s: State)
    requires Inv(s) && s.timer.Moved?
    ensures Inv(Clean(s))
  {
    UnloadedAreGreen(s);
    CleanConserves(s);
    CleanShape(s);
    CleanAwaiting(s);
    CleanDue(s);
  }

  /** A hot profile moves from its slot to the end of `tmp`. */
  lemma MarkConserves(s: State, i: nat)
    requires Conserved(s) && s.timer == Scanning(i) && i < |s.green| && s.green[i].Some?
    ensures var q := s.green[i].value;
            Conserved(s.(tmp := s.tmp + [q], green := s.green[i := None], timer := Scanning(i + 1)))
  {
    NullOne(s.green, i);
    assert multiset(s.tmp + [s.green[i].value]) == multiset(s.tmp) + multiset{s.green[i].value};
  }

  lemma MarkMoves(v: Slots, tmp: seq<Profile>, i: nat, p: Profile)
    requires i < |v| && v[i].Some?
    ensures p in Live(v[i := None]) || p in tmp + [v[i].value] <==> p in Live(v) || p in tmp
  {
    NullOne(v, i);
    assert multiset(Live(v))[p] == multiset(Live(v[i := None]))[p] + multiset{v[i].value}[p];
  }

  lemma MarkTail(v: Slots, i: nat)
    requires i < |v|
    ensures v[i..] == [v[i]] + v[i := None][i + 1..]
  {
  }

  lemma MarkAwaiting(s: State, i: nat)
    requires Awaiting(s) && s.timer == Scanning(i) && i < |s.green| && s.green[i].Some?
    ensures var q := s.green[i].value;
            Awaiting(s.(tmp := s.tmp + [q], green := s.green[i := None], timer := Scanning(i + 1)))
  {
    forall p
      ensures p in Live(s.green[i := None]) || p in s.tmp + [s.green[i].value] <==> p in Live(s.green) || p in s.tmp
    {
      MarkMoves(s.green, s.tmp, i, p);
    }
  }

  lemma MarkDue(s: State, i: nat)
    requires DueKept(s) && s.timer == Scanning(i) && i < |s.green| && s.green[i].Some?
    ensures var q := s.green[i].value;
            DueKept(s.(tmp := s.tmp + [q], green := s.green[i := None], timer := Scanning(i + 1)))
  {
    MarkTail(s.green, i);
  }

  lemma SkipDue(s: State, i: nat)
    requires DueKept(s) && s.timer == Scanning(i) && i < |s.green| && s.green[i].Some? && s.green[i].value !in s.hot
    ensures DueKept(s.(timer := Scanning(i + 1)))
  {
    assert s.green[i..] == [s.green[i]] + s.green[i + 1..];
  }

  lemma MarkShape(v: Slots, i: nat)
    requires i < |v| && AllSome(v[i..])
    ensures v[i].Some? && AllSome(v[i + 1..]) && AllSome(v[i := None][i + 1..])
  {
    assert v[i] == v[i..][0];
    assert v[i + 1..] == v[i..][1..] == v[i := None][i + 1..];
  }

  lemma ScanShape(s: State, i: nat)
    requires Shape(s) && s.timer == Scanning(i)
    ensures Shape(Scan(s, i)) && (i < |s.green| ==> s.green[i].Some?)
  {
    if i < |s.green| {
      MarkShape(s.green, i);
      NullOne(s.green, i);
    }
  }

  lemma ScanConserves(s: State, i: nat)
    requires Conserved(s) && s.timer == Scanning(i) && (i < |s.green| ==> s.green[i].Some?)
    ensures Conserved(Scan(s, i))
  {
    if i < |s.green| && s.green[i].value in s.hot {
      MarkConserves(s, i);
    } else {
      assert Places(Scan(s, i)) == Places(s);
    }
  }

  lemma ScanAwaiting(s: State, i: nat)
    requires Awaiting(s) && s.timer == Scanning(i) && (i < |s.green| ==> s.green[i].Some?)
    ensures Awaiting(Scan(s, i))
  {
    if i < |s.green| && s.green[i].value in s.hot {
      MarkAwaiting(s, i);
    } else {
      assert Outstanding(Scan(s, i)) == Outstanding(s);
    }
  }

  lemma ScanDue(s: State, i: nat)
    requires DueKept(s) && s.timer == Scanning(i) && (i < |s.green| ==> s.green[i].Some?)
    ensures DueKept(Scan(s, i))
  {
    if i < |s.green| {
      if s.green[i].value in s.hot { MarkDue(s, i); } else { SkipDue(s, i); }
    }
  }

  lemma ScanKeeps(s: State, i: nat)
    requires Inv(s) && s.timer == Scanning(i)
    ensures Inv(Scan(s, i))
  {
    ScanShape(s, i);
    ScanConserves(s, i);
    ScanAwaiting(s, i);
    ScanDue(s, i);
  }

  lemma {:induction false} NoneNulled(v: Slots)
    requires |Live(v)| == |v|
    ensures AllSome(v)
  {
    if v != [] {
      NoneNulled(v[..|v| - 1]);
    }
  }

  /** Remove and resize leave exactly the unmarked profiles, in order. */
  lemma CompactLeavesLive(s: State)
    requires Shape(s) && s.timer.Marked?
    ensures Compact(s).green == Somes(Live(s.green)) && Live(Compact(s).green) == Live(s.green)
  {
    LiveSomes(Live(s.green));
    if s.tmp == [] {
      NoneNulled(s.green);
      AllSomeLive(s.green);
    } else {
      CompactIsLive(s.green, |s.tmp|);
    }
  }

  lemma CompactConserves(s: State)
    requires Conserved(s) && s.timer.Marked? && Live(Compact(s).green) == Live(s.green)
    ensures Conserved(Compact(s))
  {
    assert s.tmp[0..] == s.tmp;
    assert Places(Compact(s)) == Places(s);
  }

  lemma CompactAwaiting(s: State)
    requires Awaiting(s) && s.timer.Marked? && Live(Compact(s).green) == Live(s.green)
    ensures Awaiting(Compact(s))
  {
    assert s.tmp[0..] == s.tmp;
    assert Outstanding(Compact(s)) == Outstanding(s);
  }

  lemma CompactDue(s: State)
    requires DueKept(s) && s.timer.Marked?
    ensures DueKept(Compact(s))
  {
    assert s.tmp[0..] == s.tmp;
  }

  lemma CompactShape(s: State)
    requires s.timer.Marked? && Compact(s).green == Somes(Live(s.green))
    ensures Shape(Compact(s))
  {
  }

  lemma CompactKeeps(s: State)
    requires Inv(s) && s.timer.Marked?
    ensures Inv(Compact(s))
  {
    CompactLeavesLive(s);
    CompactConserves(s);
    CompactShape(s);
    CompactAwaiting(s);
    CompactDue(s);
  }

  lemma FirstOut(tmp: seq<Profile>, k: nat)
    requires k < |tmp|
    ensures tmp[k..] == [tmp[k]] + tmp[k + 1..]
    ensures multiset(tmp[k..]) == multiset{tmp[k]} + multiset(tmp[k + 1..])
  {
    assert tmp[k..] == [tmp[k]] + tmp[k + 1..];
  }

  lemma ReportConserves(s: State, k: nat)
    requires Conserved(s) && s.timer == Reporting(k) && k <= |s.tmp|
    ensures Conserved(Report(s, k))
  {
    var t := Report(s, k);
    if k < |s.tmp| {
      FirstOut(s.tmp, k);
      assert Outstanding(s) == s.tmp[k..] && Outstanding(t) == s.tmp[k + 1..];
      assert multiset(t.reported) == multiset(s.reported) + multiset{s.tmp[k]};
    } else {
      assert Outstanding(s) == Outstanding(t) == [];
    }
    assert Places(t) == Places(s);
  }

  lemma ReportAwaiting(s: State, k: nat)
    requires Awaiting(s) && s.timer == Reporting(k) && k <= |s.tmp|
    ensures Awaiting(Report(s, k))
  {
    var t := Report(s, k);
    if k < |s.tmp| {
      FirstOut(s.tmp, k);
      assert forall p :: p in Outstanding(t) ==> p in Outstanding(s);
    } else {
      assert Outstanding(s) == Outstanding(t) == [];
    }
  }

  lemma ReportDue(s: State, k: nat)
    requires DueKept(s) && s.timer == Reporting(k)
    ensures DueKept(Report(s, k))
  {
    if k < |s.tmp| { FirstOut(s.tmp, k); }
  }

  lemma ReportShape(s: State, k: nat)
    requires Shape(s) && s.timer == Reporting(k)
    ensures Shape(Report(s, k)) && k <= |s.tmp|
  {
  }

  lemma ReportKeeps(s: State, k: nat)
    requires Inv(s) && s.timer == Reporting(k)
    ensures Inv(Report(s, k))
  {
    ReportShape(s, k);
    ReportConserves(s, k);
    ReportAwaiting(s, k);
    ReportDue(s, k);
  }

  lemma CreateConserves(s: State, p: Profile)
    requires Conserved(s) && p !in s.created
    ensures Conserved(s.(created := s.created + {p}, newP := s.newP + [p]))
  {
    assert multiset(s.newP + [p]) == multiset(s.newP) + multiset{p};
    assert multiset(s.created + {p}) == multiset(s.created) + multiset{p};
  }

  lemma CreateKeeps(s: State, p: Profile)
    requires Inv(s) && p !in s.created && p.loader !in s.dead
    ensures Inv(s.(created := s.created + {p}, newP := s.newP + [p]))
  {
    CreateConserves(s, p);
    assert Awaiting(s.(created := s.created + {p}, newP := s.newP + [p]));
  }

  lemma UnloadOnce(s: State, h: nat, p: Profile)
    requires Conserved(s) && Awaiting(s) && h !in s.dead
    ensures multiset(s.unloaded + FromLoader(Live(s.green), h) + FromLoader(s.newP, h))[p] <= 1
  {
    LoaderCount(Live(s.green), h, p);
    LoaderCount(s.newP, h, p);
    assert Places(s)[p] <= 1;
    assert p.loader == h ==> p !in s.unloaded;
  }

  lemma UnloadMembers(s: State, h: nat, p: Profile)
    requires Shape(s) && Awaiting(s) && s.timer.Idle?
    ensures p in s.unloaded + FromLoader(Live(s.green), h) + FromLoader(s.newP, h) <==>
            p.loader in s.dead + {h} && (p in s.newP || p in Live(s.green))
  {
    LoaderMembers(Live(s.green), h, p);
    LoaderMembers(s.newP, h, p);
    assert Outstanding(s) == [];
  }

  lemma UnloadAwaiting(s: State, h: nat)
    requires Conserved(s) && Shape(s) && Awaiting(s) && s.timer.Idle? && h !in s.dead
    ensures Awaiting(Step(s, Unload(h)))
  {
    var t := Step(s, Unload(h));
    assert Once(t.unloaded) by {
      forall p ensures multiset(t.unloaded)[p] <= 1 { UnloadOnce(s, h, p); }
    }
    forall p ensures p in t.unloaded <==> p.loader in t.dead && (p in t.newP || p in Live(t.green)) {
      UnloadMembers(s, h, p);
    }
    assert Outstanding(t) == [];
  }

  lemma UnloadKeeps(s: State, h: nat)
    requires Inv(s) && s.timer.Idle? && h !in s.dead
    ensures Inv(Step(s, Unload(h)))
  {
    UnloadAwaiting(s, h);
    assert Places(Step(s, Unload(h))) == Places(s);
  }

  lemma AdvanceKeeps(s: State)
    requires Inv(s)
    ensures Inv(Step(s, Advance))
  {
    var t := Step(s, Advance);
    match s.timer
    case Idle => assert t == Begin(s); BeginKeeps(s);
    case Moved => assert t == Clean(s); CleanKeeps(s);
    case Scanning(i) => assert t == Scan(s, i); ScanKeeps(s, i);
    case Marked => assert t == Compact(s); CompactKeeps(s);
    case Reporting(k) => assert t == Report(s, k); ReportKeeps(s, k);
  }

  lemma HeatKeeps(s: State, p: Profile)
    requires Inv(s)
    ensures Inv(Step(s, Heat(p)))
  {
    var t := Step(s, Heat(p));
    assert Places(t) == Places(s) && Awaiting(t);
  }

  lemma StepKeeps(s: State, a: Action)
    requires Inv(s)
    ensures Inv(Step(s, a))
  {
    match a
    case Create(p) => if p !in s.created && p.loader !in s.dead && p.async { CreateKeeps(s, p); }
    case Heat(p) => HeatKeeps(s, p);
    case Unload(h) => if s.timer.Idle? && h !in s.dead { UnloadKeeps(s, h); }
    case Advance => AdvanceKeeps(s);
  }

  lemma {:induction false} ExecKeeps(s: State, acts: seq<Action>)
    requires Inv(s)
    ensures Inv(Exec(s, acts))
  {
    if acts != [] {
      ExecKeeps(s, acts[..|acts| - 1]);
      StepKeeps(Exec(s, acts[..|acts| - 1]), acts[|acts| - 1]);
    }
  }

  // ---------------------------------------------------------------------------------------------
  // Main results over all runs
  // ---------------------------------------------------------------------------------------------

  /** In every run: a created profile is in exactly one of new, green, marked, reported and deleted; none is
      reported twice; every lookup of an unloaded profile succeeds; and when a timer call has returned, every
      profile that was hot and loaded at its beginning is reported. */
  lemma EveryRun(acts: seq<Action>)
    ensures var s := Exec(Initial(), acts);
            && (forall p :: Places(s)[p] == if p in s.created then 1 else 0)
            && NoDuplicates(s.reported)
            && !s.lookupFailed
            && (s.timer.Idle? ==> forall p :: p in s.due ==> p in s.reported)
  {
    var s := Exec(Initial(), acts);
    assert Inv(Initial());
    ExecKeeps(Initial(), acts);
    forall p ensures multiset(s.reported)[p] <= 1 {
      assert multiset(s.reported)[p] <= Places(s)[p];
    }
    OnceNoDuplicates(s.reported);
  }

  lemma StepDue(s: State, a: Action, p: Profile)
    requires DueKept(s) && (p in s.due || p in s.reported)
    ensures p in Step(s, a).due || p in Step(s, a).reported
  {
  }

  /** The next step reports a profile. */
  predicate Reports(s: State, a: Action) {
    a.Advance? && s.timer.Reporting? && s.timer.k < |s.tmp|
  }

  lemma StepReported(s: State, a: Action)
    ensures Step(s, a).reported == s.reported + if Reports(s, a) then [s.tmp[s.timer.k]] else []
    ensures forall p :: p in Step(s, a).created && p !in s.created ==> p.async
  {
  }

  lemma {:induction false} DueOrReported(s: State, acts: seq<Action>, p: Profile)
    requires Inv(s) && (p in s.due || p in s.reported)
    ensures p in Exec(s, acts).due || p in Exec(s, acts).reported
  {
    if acts != [] {
      var g := acts[..|acts| - 1];
      ExecKeeps(s, g);
      DueOrReported(s, g, p);
      StepDue(Exec(s, g), acts[|acts| - 1], p);
    }
  }

  lemma BecomesDue(s: State, p: Profile)
    requires s.timer.Idle? && p in Live(s.green) + s.newP && p in s.hot && p.loader !in s.dead
    ensures p in Step(s, Advance).due
  {
  }

  lemma DueIsReported(s: State, p: Profile)
    requires DueKept(s) && s.timer.Idle? && (p in s.due || p in s.reported)
    ensures p in s.reported
  {
  }

  /** A profile that is hot when `onTimeout` starts, and not awaiting unload, is reported by the time that call
      returns, whatever happens in between. */
  lemma HotAtStartIsReported(s: State, acts: seq<Action>, p: Profile)
    requires Inv(s) && s.timer.Idle?
    requires p in Live(s.green) + s.newP && p in s.hot && p.loader !in s.dead
    ensures var t := Exec(Step(s, Advance), acts);
            t.timer.Idle? ==> p in t.reported
  {
    var b := Step(s, Advance);
    AdvanceKeeps(s);
    BecomesDue(s, p);
    ExecKeeps(b, acts);
    DueOrReported(b, acts, p);
    if Exec(b, acts).timer.Idle? { DueIsReported(Exec(b, acts), p); }
  }

  lemma ReportsOnlyLoaded(s: State, a: Action, p: Profile)
    requires Awaiting(s) && p.loader in s.dead
    ensures p.loader in Step(s, a).dead
    ensures p in Step(s, a).reported ==> p in s.reported
  {
    if a.Advance? && s.timer.Reporting? && s.timer.k < |s.tmp| {
      assert s.tmp[s.timer.k] in Outstanding(s);
    }
  }

  /** After the callback for its loader no profile is ever reported. */
  lemma {:induction false} NoReportAfterUnload(s: State, acts: seq<Action>, p: Profile)
    requires Inv(s) && p.loader in s.dead
    ensures p.loader in Exec(s, acts).dead
    ensures p in Exec(s, acts).reported ==> p in s.reported
  {
    if acts != [] {
      var g := acts[..|acts| - 1];
      ExecKeeps(s, g);
      NoReportAfterUnload(s, g, p);
      ReportsOnlyLoaded(Exec(s, g), acts[|acts| - 1], p);
    }
  }

  // ---------------------------------------------------------------------------------------------
  // What the actions of other threads lead to
  // ---------------------------------------------------------------------------------------------

  /** The callback for a loader that is still loaded notes its profiles as `ClassloaderUnloadingCallback` promises,
      whose precondition holds, and touches nothing else. */
  lemma UnloadCall(s: State, h: nat)
    requires Inv(s) && s.timer.Idle? && h !in s.dead
    ensures forall p :: p in s.unloaded ==> p.loader != h
    ensures Step(s, Unload(h)) ==
            s.(unloaded := Noted(Live(s.green), s.newP, s.unloaded, h), dead := s.dead + {h})
  {
  }

  /** Creation puts the profile among the new ones, as `CreateProfile` promises, whose precondition holds. */
  lemma CreateCall(s: State, p: Profile)
    requires Inv(s) && p.async && p !in s.created && p.loader !in s.dead
    ensures p !in Live(s.green) + s.newP
    ensures Step(s, Create(p)) == s.(newP := s.newP + [p], created := s.created + {p})
  {
    assert Places(s)[p] == 0;
    assert p !in multiset(Live(s.green)) && p !in multiset(s.newP);
  }

  /** A profile of an unloaded loader is gone, or about to be removed by the timer call that is under way. */
  ghost predicate Doomed(s: State, p: Profile) {
    p in s.deleted || (s.timer.Moved? && p in s.unloaded)
  }

  lemma {:induction false} StaysDoomed(s: State, acts: seq<Action>, p: Profile)
    requires Doomed(s, p)
    ensures Doomed(Exec(s, acts), p)
  {
    if acts != [] {
      StaysDoomed(s, acts[..|acts| - 1], p);
    }
  }

  lemma UnloadNotes(s: State, h: nat, p: Profile)
    requires Inv(s) && s.timer.Idle? && p.loader == h && p in Live(s.green) + s.newP
    ensures var u := Step(s, Unload(h)); p in u.unloaded && u.timer.Idle?
  {
    if h !in s.dead { UnloadMembers(s, h, p); }
  }

  lemma NotReportedAfter(s: State, h: nat, acts: seq<Action>, p: Profile)
    requires Inv(s) && s.timer.Idle? && p.loader == h
    ensures p in Exec(Step(s, Unload(h)), acts).reported ==> p in s.reported
  {
    StepKeeps(s, Unload(h));
    NoReportAfterUnload(Step(s, Unload(h)), acts, p);
  }

  lemma NextCallDooms(u: State, p: Profile)
    requires u.timer.Idle? && p in u.unloaded
    ensures Doomed(Step(u, Advance), p)
  {
  }

  /** From the callback on, whatever follows: no profile of the loader is reported any more, and those that were green
      or new are deleted by the time the next timer call has returned. */
  lemma UnloadedIsDeleted(s: State, h: nat, acts: seq<Action>, p: Profile)
    requires Inv(s) && s.timer.Idle? && p.loader == h
    ensures p in Exec(Step(s, Unload(h)), acts).reported ==> p in s.reported
    ensures var t := Exec(Step(Step(s, Unload(h)), Advance), acts);
            p in Live(s.green) + s.newP && t.timer.Idle? ==> p in t.deleted
  {
    var u := Step(s, Unload(h));
    NotReportedAfter(s, h, acts, p);
    if p in Live(s.green) + s.newP {
      UnloadNotes(s, h, p);
      NextCallDooms(u, p);
      StaysDoomed(Step(u, Advance), acts, p);
    }
  }

  /** Only profiles of unloaded loaders are deleted. */
  ghost predicate DeletedDead(s: State) {
    forall p :: p in s.deleted ==> p.loader in s.dead
  }

  lemma StepDeleted(s: State, a: Action)
    ensures Step(s, a).deleted == s.deleted + if a.Advance? && s.timer.Moved? then s.unloaded else []
    ensures s.dead <= Step(s, a).dead
  {
  }

  lemma StepDeletedDead(s: State, a: Action)
    requires Awaiting(s) && DeletedDead(s)
    ensures DeletedDead(Step(s, a))
  {
    StepDeleted(s, a);
    forall p | p in Step(s, a).deleted ensures p.loader in s.dead {
      if p !in s.deleted { assert p in s.unloaded; }
    }
  }

  /** What a run says about a profile it creates, heats and does not unload. */
  ghost predicate Follows(s: State, acts: seq<Action>, p: Profile) {
    && (Create(p) in acts ==> p in s.created)
    && (Heat(p) in acts ==> p in s.hot)
    && (Unload(p.loader) !in acts ==> p.loader !in s.dead)
  }

  lemma StepFollows(s: State, acts: seq<Action>, a: Action, p: Profile)
    requires p.async && Follows(s, acts, p) && Unload(p.loader) !in acts + [a]
    ensures Follows(Step(s, a), acts + [a], p)
  {
  }

  lemma {:induction false} RunFollows(acts: seq<Action>, p: Profile)
    requires p.async && Unload(p.loader) !in acts
    ensures var s := Exec(Initial(), acts); Follows(s, acts, p) && DeletedDead(s) && Inv(s)
  {
    assert Inv(Initial());
    if acts != [] {
      var g, a := acts[..|acts| - 1], acts[|acts| - 1];
      assert acts == g + [a];
      RunFollows(g, p);
      StepFollows(Exec(Initial(), g), g, a, p);
      StepDeletedDead(Exec(Initial(), g), a);
      StepKeeps(Exec(Initial(), g), a);
    }
  }

  lemma AliveSomewhere(s: State, p: Profile)
    requires Inv(s) && DeletedDead(s) && s.timer.Idle? && p in s.created && p.loader !in s.dead
    ensures p in Live(s.green) + s.newP || p in s.reported
  {
    assert Places(s)[p] == 1;
    assert Outstanding(s) == [] && p !in s.deleted;
  }

  lemma {:induction false} ReportedStays(s: State, acts: seq<Action>, p: Profile)
    requires p in s.reported
    ensures p in Exec(s, acts).reported
  {
    if acts != [] {
      ReportedStays(s, acts[..|acts| - 1], p);
      StepReported(Exec(s, acts[..|acts| - 1]), acts[|acts| - 1]);
    }
  }

  /** In every run that creates a profile, heats it and does not unload its loader, in whatever order and with whatever
      else: the next timer call to start and return has the profile reported. */
  lemma CreatedAndHotIsReported(acts: seq<Action>, more: seq<Action>, p: Profile)
    requires p.async && Create(p) in acts && Heat(p) in acts && Unload(p.loader) !in acts
    requires Exec(Initial(), acts).timer.Idle?
    ensures var t := Exec(Step(Exec(Initial(), acts), Advance), more);
            t.timer.Idle? ==> p in t.reported
  {
    var s := Exec(Initial(), acts);
    RunFollows(acts, p);
    AliveSomewhere(s, p);
    if p in s.reported {
      AdvanceKeeps(s);
      StepReported(s, Advance);
      ReportedStays(Step(s, Advance), more, p);
    } else {
      HotAtStartIsReported(s, more, p);
    }
  }

  // ---------------------------------------------------------------------------------------------
  // A timer call that nothing interrupts
  // ---------------------------------------------------------------------------------------------

  /** `n` timer steps in a row. */
  function Quiet(n: nat): seq<Action> {
    seq(n, _ => Advance)
  }

  /** `n` timer steps lead from `s` to `t`, and none of them ends the call. */
  ghost predicate Quietly(s: State, n: nat, t: State) {
    Exec(s, Quiet(n)) == t && forall m :: 0 < m <= n ==> !Exec(s, Quiet(m)).timer.Idle?
  }

  lemma QuietMore(s: State, n: nat)
    ensures Exec(s, Quiet(n + 1)) == Step(Exec(s, Quiet(n)), Advance)
  {
    assert Quiet(n + 1)[..n] == Quiet(n);
  }

  lemma QuietStep(s: State, n: nat, t: State, u: State)
    requires Quietly(s, n, t) && Step(t, Advance) == u && !u.timer.Idle?
    ensures Quietly(s, n + 1, u)
  {
    QuietMore(s, n);
  }

  /** `s` as a vector in which the members of `H` among the first `i` have been nulled. */
  function HalfMasked(s: seq<Profile>, H: set<Profile>, i: nat): Slots {
    seq(|s|, j requires 0 <= j < |s| => if j < i && s[j] in H then None else Some(s[j]))
  }

  /** The state at slot `i` of the checking loop. */
  function Checking(b: State, kept: seq<Profile>, i: nat): State
    requires i <= |kept|
  {
    b.(green := HalfMasked(kept, b.hot, i), tmp := Taken(kept[..i], b.hot), timer := Scanning(i))
  }

  lemma CheckOne(b: State, kept: seq<Profile>, i: nat)
    requires i < |kept|
    ensures Scan(Checking(b, kept, i), i) == Checking(b, kept, i + 1)
  {
    var v, w := HalfMasked(kept, b.hot, i), HalfMasked(kept, b.hot, i + 1);
    assert kept[..i + 1][..i] == kept[..i];
    assert w == if kept[i] in b.hot then v[i := None] else v;
  }

  /** The checking loop nulls exactly the hot profiles and puts them in `tmp`, in order. */
  lemma {:induction false} QuietScan(s: State, n: nat, b: State, kept: seq<Profile>, i: nat) returns (m: nat)
    requires i <= |kept| && Quietly(s, n, Checking(b, kept, i))
    ensures Quietly(s, m, b.(green := Masked(kept, b.hot), tmp := Taken(kept, b.hot), timer := Marked))
    decreases |kept| - i
  {
    var t := Checking(b, kept, i);
    if i < |kept| {
      CheckOne(b, kept, i);
      QuietStep(s, n, t, Checking(b, kept, i + 1));
      m := QuietScan(s, n + 1, b, kept, i + 1);
    } else {
      assert kept[..i] == kept && HalfMasked(kept, b.hot, i) == Masked(kept, b.hot);
      m := n + 1;
      QuietStep(s, n, t, Scan(t, i));
    }
  }

  /** The state at profile `k` of the reporting loop. */
  function Handing(b: State, k: nat): State
    requires k <= |b.tmp|
  {
    b.(reported := b.reported + b.tmp[..k], timer := Reporting(k))
  }

  lemma HandOne(b: State, k: nat)
    requires k < |b.tmp|
    ensures Report(Handing(b, k), k) == Handing(b, k + 1)
  {
    assert b.reported + b.tmp[..k] + [b.tmp[k]] == b.reported + b.tmp[..k + 1];
  }

  /** The reporting loop hands over all of `tmp`, in order. */
  lemma {:induction false} QuietReport(s: State, n: nat, b: State, k: nat) returns (m: nat, t: State)
    requires k <= |b.tmp| && Quietly(s, n, Handing(b, k))
    ensures Quietly(s, m, t) && Step(t, Advance) == b.(reported := b.reported + b.tmp, tmp := [], timer := Idle)
    decreases |b.tmp| - k
  {
    t := Handing(b, k);
    if k < |b.tmp| {
      HandOne(b, k);
      QuietStep(s, n, t, Handing(b, k + 1));
      m, t := QuietReport(s, n + 1, b, k + 1);
    } else {
      m := n;
      assert b.tmp[..k] == b.tmp;
    }
  }

  /** What is left once the marked profiles are removed and the vector is shrunk. */
  lemma CompactMasked(b: State, kept: seq<Profile>)
    requires b.green == Masked(kept, b.hot) && b.tmp == Taken(kept, b.hot)
    ensures Live(Compact(b).green) == Rest(kept, b.hot)
  {
    MaskedLive(kept, b.hot);
    LiveSomes(Rest(kept, b.hot));
    if b.tmp != [] { CompactIsLive(b.green, |b.tmp|); }
  }

  lemma CleanBegin(s: State)
    requires s.timer.Idle? && s.tmp == []
    ensures Checking(Clean(Begin(s)), Survivors(Live(s.green), s.newP, s.unloaded), 0) == Clean(Begin(s))
  {
    var b, kept := Clean(Begin(s)), Survivors(Live(s.green), s.newP, s.unloaded);
    LiveAppend(s.green, s.newP);
    assert HalfMasked(kept, b.hot, 0) == Somes(kept) && kept[..0] == [];
  }

  lemma QuietStart(s: State)
    requires s.timer.Idle?
    ensures Quietly(s, 2, Clean(Begin(s)))
  {
    var b := Clean(Begin(s));
    assert Quietly(s, 0, s);
    QuietStep(s, 0, s, Begin(s));
    QuietStep(s, 1, Begin(s), b);
  }

  /** The end of a call that has just marked its hot profiles. */
  lemma QuietEnd(s: State, n: nat, c: State) returns (m: nat, t: State)
    requires Quietly(s, n, c) && c.timer.Marked?
    ensures Quietly(s, m, t)
    ensures Step(t, Advance) == Compact(c).(reported := c.reported + c.tmp, tmp := [], timer := Idle)
  {
    if c.tmp == [] {
      m, t := n, c;
    } else {
      var d := Compact(c);
      QuietStep(s, n, c, d);
      assert Handing(d, 0) == d;
      m, t := QuietReport(s, n + 1, d, 0);
    }
  }

  /** A timer call whose steps nothing interrupts does what `OnTimeout` promises: the survivors that are not hot
      stay green, those that are hot are reported, both in order, and nothing is left new or awaiting deletion. */
  lemma QuietCall(s: State) returns (n: nat, t: State)
    requires s.timer.Idle? && s.tmp == []
    ensures Quietly(s, n, t)
    ensures var r, kept := Step(t, Advance), Survivors(Live(s.green), s.newP, s.unloaded);
            && r.timer.Idle? && r.tmp == [] && r.newP == [] && r.unloaded == []
            && Live(r.green) == Rest(kept, s.hot) && r.reported == s.reported + Taken(kept, s.hot)
            && r.deleted == s.deleted + s.unloaded
            && r.hot == s.hot && r.created == s.created && r.dead == s.dead
  {
    var b, kept := Clean(Begin(s)), Survivors(Live(s.green), s.newP, s.unloaded);
    QuietStart(s);
    CleanBegin(s);
    var m := QuietScan(s, 2, b, kept, 0);
    var c := b.(green := Masked(kept, b.hot), tmp := Taken(kept, b.hot), timer := Marked);
    CompactMasked(c, kept);
    n, t := QuietEnd(s, m, c);
  }
}
