/** Threads that call `addNewValue` and `getResult` on one profile.

    A call is not atomic here: every assignment of its body is a step of its own, and attempts of other threads
    may come between any two of them. `getResult` and the Divided manager always take the lock; the FirstN manager
    takes the lock under UPDATE_LOCKED and the updating flag under UPDATE_FLAGGED_ALL. */
module TnvThreads {
  import opened TopNValue

  datatype Strategy = Locked | FlaggedAll

  /** The next thing a thread inside a call does; `e` is the call. */
  datatype Pc =
    | AtTick(e: Event)
    | AtCompare(e: Event)
    | AtIncrement(e: Event)
    | AtFlushInsert(e: Event)
    | AtFlushReset(e: Event)
    | AtSetOne(e: Event)
    | AtInsert(e: Event)
    | AtSetLast(e: Event)
    | AtRead(e: Event)
    | AtRelease(e: Event)

  /** A call whose outcome is settled: admitted, or skipped because the flag was set. */
  datatype Call = Call(e: Event, admitted: bool)

  /** `inside` maps the threads inside a call to where they are; `answers` are the results of `getResult`. */
  datatype Sys = Sys(
    profile: Profile, flag: bool, lock: bool, inside: map<nat, Pc>, calls: seq<Call>, answers: seq<nat>)

  datatype Act = Attempt(t: nat, e: Event) | Advance(t: nat)

  predicate AlwaysLocks(mgr: Manager, strategy: Strategy) { mgr.Divided? || strategy.Locked? }

  predicate ByLock(mgr: Manager, strategy: Strategy, e: Event) { e.GetResult? || AlwaysLocks(mgr, strategy) }

  function First(e: Event): Pc { if e.Sample? then AtTick(e) else AtFlushInsert(e) }

  function Value(e: Event): nat { if e.Sample? then e.value else 0 }

  function BodyStep(w: Width, mgr: Manager, p: Profile, pc: Pc): (Profile, Pc)
    requires Sized(mgr, p)
  {
    var e := pc.e;
    match pc
    case AtTick(_) => (Tick(w, mgr, p), AtCompare(e))
    case AtCompare(_) => (p, if Value(e) == p.lastValue then AtIncrement(e) else AtFlushInsert(e))
    case AtIncrement(_) => (p.(numTimes := Plus(w, p.numTimes, 1)), AtRelease(e))
    case AtFlushInsert(_) => (Insert(w, mgr, p, p.lastValue, p.numTimes), AtFlushReset(e))
    case AtFlushReset(_) => (p.(numTimes := 0), if e.Sample? then AtSetOne(e) else AtRead(e))
    case AtSetOne(_) => (p.(numTimes := 1), AtInsert(e))
    case AtInsert(_) => (Insert(w, mgr, p, Value(e), p.numTimes), AtSetLast(e))
    case AtSetLast(_) => (p.(lastValue := Value(e)), AtRelease(e))
    case AtRead(_) => (p, AtRelease(e))
    case AtRelease(_) => (p, pc)
  }

  /** The state after the next assignment of thread t. */
  function AfterBody(w: Width, mgr: Manager, s: Sys, t: nat): Sys
    requires Sized(mgr, s.profile) && t in s.inside
  {
    var (p, pc) := BodyStep(w, mgr, s.profile, s.inside[t]);
    s.(profile := p, inside := s.inside[t := pc],
       answers := s.answers + if s.inside[t].AtRead? then [FindMax(s.profile.steady)] else [])
  }

  function Admit(s: Sys, t: nat, e: Event): Sys {
    s.(inside := s.inside[t := First(e)], calls := s.calls + [Call(e, true)])
  }

  /** An attempt under the flag is skipped while another update runs; under the lock it has to wait. */
  function Next(w: Width, mgr: Manager, strategy: Strategy, s: Sys, act: Act): (r: Sys)
    requires Sized(mgr, s.profile)
    ensures Sized(mgr, r.profile)
  {
    match act
    case Attempt(t, e) =>
      if t in s.inside then s
      else if ByLock(mgr, strategy, e) then if s.lock then s else Admit(s.(lock := true), t, e)
      else if s.flag then s.(calls := s.calls + [Call(e, false)])
      else Admit(s.(flag := true), t, e)
    case Advance(t) =>
      if t !in s.inside then s
      else if s.inside[t].AtRelease? then
        var r := s.(inside := s.inside - {t});
        if ByLock(mgr, strategy, s.inside[t].e) then r.(lock := false) else r.(flag := false)
      else AfterBody(w, mgr, s, t)
  }

  function Exec(w: Width, mgr: Manager, strategy: Strategy, s: Sys, acts: seq<Act>): Sys
    requires Sized(mgr, s.profile)
  {
    if acts == [] then s
    else Next(w, mgr, strategy, Exec(w, mgr, strategy, s, acts[..|acts| - 1]), acts[|acts| - 1])
  }

  function Start(cfg: Config): Sys {
    Sys(Initial(cfg.steadySize, cfg.clearSize), false, false, map[], [], [])
  }

  // ---------------------------------------------------------------------------------------------
  // Serialisation
  // ---------------------------------------------------------------------------------------------

  /** The admitted calls, in the order of admission. */
  function Admitted(calls: seq<Call>): seq<Event> {
    if calls == [] then [] else
      var c := calls[|calls| - 1];
      Admitted(calls[..|calls| - 1]) + if c.admitted then [c.e] else []
  }

  /** What the calls of `getResult` in a serial history answer. */
  ghost function AnswersOf(w: Width, cfg: Config, h: seq<Event>): seq<nat>
    requires cfg.Ok()
  {
    if h == [] then [] else
      AnswersOf(w, cfg, h[..|h| - 1]) + if h[|h| - 1].GetResult? then [FindMax(Run(w, cfg, h).steady)] else []
  }

  /** The profile in the middle of the call `pc.e` on `p`. */
  ghost function Partial(w: Width, mgr: Manager, p: Profile, pc: Pc): Profile
    requires Sized(mgr, p)
  {
    var q := if pc.e.Sample? then Tick(w, mgr, p) else p;
    match pc
    case AtTick(_) => p
    case AtCompare(_) => q
    case AtIncrement(_) => q
    case AtFlushInsert(_) => q
    case AtFlushReset(_) => Insert(w, mgr, q, q.lastValue, q.numTimes)
    case AtSetOne(_) => Flush(w, mgr, q)
    case AtInsert(_) => Flush(w, mgr, q).(numTimes := 1)
    case AtSetLast(e) => Insert(w, mgr, Flush(w, mgr, q).(numTimes := 1), Value(e), 1)
    case AtRead(_) => Flush(w, mgr, q)
    case AtRelease(e) => Handle(w, mgr, p, e)
  }

  /** The branches taken so far are the right ones. */
  ghost predicate OnBranch(p: Profile, pc: Pc) {
    match pc
    case AtTick(e) => e.Sample?
    case AtCompare(e) => e.Sample?
    case AtIncrement(e) => e.Sample? && e.value == p.lastValue
    case AtFlushInsert(e) => e.Sample? ==> e.value != p.lastValue
    case AtFlushReset(e) => e.Sample? ==> e.value != p.lastValue
    case AtSetOne(e) => e.Sample? && e.value != p.lastValue
    case AtInsert(e) => e.Sample? && e.value != p.lastValue
    case AtSetLast(e) => e.Sample? && e.value != p.lastValue
    case AtRead(e) => e.GetResult?
    case AtRelease(_) => true
  }

  lemma BodyFollowsPartial(w: Width, mgr: Manager, p: Profile, pc: Pc)
    requires Sized(mgr, p) && OnBranch(p, pc) && Sized(mgr, Partial(w, mgr, p, pc))
    ensures var (p', pc') := BodyStep(w, mgr, Partial(w, mgr, p, pc), pc);
            pc'.e == pc.e && OnBranch(p, pc') && p' == Partial(w, mgr, p, pc')
  {
  }

  /** What `getResult` has put out in the middle of the call. */
  function Output(w: Width, mgr: Manager, p: Profile, pc: Pc): seq<nat>
    requires Sized(mgr, p)
  {
    if pc.AtRelease? && pc.e.GetResult? then [FindMax(Flush(w, mgr, p).steady)] else []
  }

  /** Nobody is inside, or one thread, which holds the guard that all calls go through: the lock or the flag. */
  ghost predicate Exclusive(mgr: Manager, strategy: Strategy, byLock: bool, s: Sys) {
    && (s.lock || s.flag <==> s.inside != map[])
    && (if byLock then !s.flag else !s.lock)
    && (forall t :: t in s.inside ==> ByLock(mgr, strategy, s.inside[t].e) == byLock)
    && (forall t, u :: t in s.inside && u in s.inside ==> t == u)
  }

  /** The thread at `pc` is in the middle of call `e` on profile `p`, with the answers `out` before it. */
  ghost predicate InMiddle(w: Width, mgr: Manager, p: Profile, e: Event, out: seq<nat>, s: Sys, pc: Pc)
    requires Sized(mgr, p)
  {
    pc.e == e && OnBranch(p, pc) && s.profile == Partial(w, mgr, p, pc) && s.answers == out + Output(w, mgr, p, pc)
  }

  /** The profile and the answers are those of the admitted calls made one after the other. */
  ghost predicate Serial(w: Width, cfg: Config, s: Sys)
    requires cfg.Ok()
  {
    var h := Admitted(s.calls);
    if s.inside == map[] then s.profile == Run(w, cfg, h) && s.answers == AnswersOf(w, cfg, h)
    else
      h != [] &&
      forall t :: t in s.inside ==>
        InMiddle(w, cfg.mgr, Run(w, cfg, h[..|h| - 1]), h[|h| - 1], AnswersOf(w, cfg, h[..|h| - 1]), s, s.inside[t])
  }

  ghost predicate AllAdmitted(calls: seq<Call>) { forall i :: 0 <= i < |calls| ==> calls[i].admitted }

  ghost predicate Inv(w: Width, cfg: Config, strategy: Strategy, byLock: bool, s: Sys)
    requires cfg.Ok()
  {
    && Sized(cfg.mgr, s.profile) && Exclusive(cfg.mgr, strategy, byLock, s) && Serial(w, cfg, s)
    && (byLock ==> AllAdmitted(s.calls))
  }

  lemma AdmittedStep(calls: seq<Call>, c: Call)
    ensures Admitted(calls + [c]) == if c.admitted then Admitted(calls) + [c.e] else Admitted(calls)
  {
    assert (calls + [c])[..|calls|] == calls;
  }

  lemma LastOf(h: seq<Event>, e: Event)
    ensures (h + [e])[..|h + [e]| - 1] == h && (h + [e])[|h + [e]| - 1] == e
  {
  }

  lemma AdmitSerial(w: Width, cfg: Config, s: Sys, t: nat, e: Event)
    requires cfg.Ok() && Serial(w, cfg, s) && s.inside == map[]
    ensures Serial(w, cfg, Admit(s, t, e))
  {
    var h := Admitted(s.calls);
    AdmittedStep(s.calls, Call(e, true));
    LastOf(h, e);
    var r := Admit(s, t, e);
    assert Admitted(r.calls) == h + [e] && t in r.inside && r.inside.Keys == {t};
    assert InMiddle(w, cfg.mgr, Run(w, cfg, h), e, AnswersOf(w, cfg, h), r, First(e));
  }

  lemma SkipSerial(w: Width, cfg: Config, s: Sys, e: Event)
    requires cfg.Ok() && Serial(w, cfg, s)
    ensures Serial(w, cfg, s.(calls := s.calls + [Call(e, false)]))
  {
    AdmittedStep(s.calls, Call(e, false));
  }

  /** The call, if it is one, goes through the lock, or through the flag. */
  ghost predicate Guarded(mgr: Manager, strategy: Strategy, byLock: bool, act: Act) {
    act.Attempt? ==> ByLock(mgr, strategy, act.e) == byLock
  }

  lemma AdmitExclusive(mgr: Manager, strategy: Strategy, byLock: bool, s: Sys, t: nat, e: Event)
    requires Exclusive(mgr, strategy, byLock, s) && s.inside == map[] && ByLock(mgr, strategy, e) == byLock
    ensures Exclusive(mgr, strategy, byLock, Admit(if byLock then s.(lock := true) else s.(flag := true), t, e))
  {
    assert t in s.inside[t := First(e)];
  }

  lemma AdmitKeeps(w: Width, cfg: Config, strategy: Strategy, byLock: bool, s: Sys, t: nat, e: Event)
    requires cfg.Ok() && Inv(w, cfg, strategy, byLock, s)
    requires ByLock(cfg.mgr, strategy, e) == byLock && s.inside == map[]
    ensures Inv(w, cfg, strategy, byLock, Next(w, cfg.mgr, strategy, s, Attempt(t, e)))
  {
    var g := if byLock then s.(lock := true) else s.(flag := true);
    assert Next(w, cfg.mgr, strategy, s, Attempt(t, e)) == Admit(g, t, e);
    assert Serial(w, cfg, g);
    AdmitSerial(w, cfg, g, t, e);
    AdmitExclusive(cfg.mgr, strategy, byLock, s, t, e);
  }

  lemma AttemptKeeps(w: Width, cfg: Config, strategy: Strategy, byLock: bool, s: Sys, t: nat, e: Event)
    requires cfg.Ok() && Inv(w, cfg, strategy, byLock, s) && ByLock(cfg.mgr, strategy, e) == byLock
    ensures Inv(w, cfg, strategy, byLock, Next(w, cfg.mgr, strategy, s, Attempt(t, e)))
  {
    var r := Next(w, cfg.mgr, strategy, s, Attempt(t, e));
    if s.inside == map[] {
      AdmitKeeps(w, cfg, strategy, byLock, s, t, e);
    } else if t in s.inside || byLock {
      assert r == s;
    } else {
      assert r == s.(calls := s.calls + [Call(e, false)]);
      SkipSerial(w, cfg, s, e);
    }
  }

  lemma ReleaseKeeps(w: Width, cfg: Config, strategy: Strategy, byLock: bool, s: Sys, t: nat)
    requires cfg.Ok() && Inv(w, cfg, strategy, byLock, s) && t in s.inside && s.inside[t].AtRelease?
    ensures Inv(w, cfg, strategy, byLock, Next(w, cfg.mgr, strategy, s, Advance(t)))
  {
    assert s.inside - {t} == map[];
  }

  lemma BodyInMiddle(w: Width, mgr: Manager, p: Profile, e: Event, out: seq<nat>, s: Sys, t: nat)
    requires Sized(mgr, p) && Sized(mgr, s.profile) && t in s.inside && !s.inside[t].AtRelease?
    requires InMiddle(w, mgr, p, e, out, s, s.inside[t])
    ensures var r := AfterBody(w, mgr, s, t); InMiddle(w, mgr, p, e, out, r, r.inside[t])
  {
    BodyFollowsPartial(w, mgr, p, s.inside[t]);
  }

  lemma BodySerial(w: Width, cfg: Config, s: Sys, t: nat)
    requires cfg.Ok() && Sized(cfg.mgr, s.profile) && Serial(w, cfg, s)
    requires t in s.inside && !s.inside[t].AtRelease? && forall u :: u in s.inside ==> u == t
    ensures Serial(w, cfg, AfterBody(w, cfg.mgr, s, t))
  {
    var h, r := Admitted(s.calls), AfterBody(w, cfg.mgr, s, t);
    var p, e, out := Run(w, cfg, h[..|h| - 1]), h[|h| - 1], AnswersOf(w, cfg, h[..|h| - 1]);
    assert InMiddle(w, cfg.mgr, p, e, out, s, s.inside[t]);
    BodyInMiddle(w, cfg.mgr, p, e, out, s, t);
    assert r.inside.Keys == {t} && r.inside != map[];
  }

  lemma BodyKeeps(w: Width, cfg: Config, strategy: Strategy, byLock: bool, s: Sys, t: nat)
    requires cfg.Ok() && Inv(w, cfg, strategy, byLock, s) && t in s.inside && !s.inside[t].AtRelease?
    ensures Inv(w, cfg, strategy, byLock, Next(w, cfg.mgr, strategy, s, Advance(t)))
  {
    BodySerial(w, cfg, s, t);
    var (p, pc) := BodyStep(w, cfg.mgr, s.profile, s.inside[t]);
    assert pc.e == s.inside[t].e && s.inside[t := pc].Keys == s.inside.Keys;
  }

  /** At rest the profile and the answers given are those of the admitted calls made one after the other. */
  ghost predicate SerialAtRest(w: Width, cfg: Config, s: Sys)
    requires cfg.Ok()
  {
    var h := Admitted(s.calls);
    s.inside == map[] ==> s.profile == Run(w, cfg, h) && s.answers == AnswersOf(w, cfg, h)
  }

  /** For any number of threads and any interleaving, as long as all calls go through one guard: at most one thread
      is inside a call; whenever none is, the profile and the answers given are those of the admitted calls made one
      after the other; and where the guard is the lock, every settled call is admitted. */
  lemma {:induction false} UpdatesSerialise(w: Width, cfg: Config, strategy: Strategy, byLock: bool, acts: seq<Act>)
    requires cfg.Ok() && forall i :: 0 <= i < |acts| ==> Guarded(cfg.mgr, strategy, byLock, acts[i])
    ensures var s := Exec(w, cfg.mgr, strategy, Start(cfg), acts);
            && Inv(w, cfg, strategy, byLock, s) && SerialAtRest(w, cfg, s)
            && (forall t, u :: t in s.inside && u in s.inside ==> t == u)
            && (byLock ==> AllAdmitted(s.calls))
  {
    if acts != [] {
      var g := acts[..|acts| - 1];
      assert forall i :: 0 <= i < |g| ==> g[i] == acts[i];
      UpdatesSerialise(w, cfg, strategy, byLock, g);
      var s := Exec(w, cfg.mgr, strategy, Start(cfg), g);
      assert Guarded(cfg.mgr, strategy, byLock, acts[|acts| - 1]);
      match acts[|acts| - 1]
      case Attempt(t, e) => AttemptKeeps(w, cfg, strategy, byLock, s, t, e);
      case Advance(t) =>
        if t in s.inside && s.inside[t].AtRelease? { ReleaseKeeps(w, cfg, strategy, byLock, s, t); }
        if t in s.inside && !s.inside[t].AtRelease? { BodyKeeps(w, cfg, strategy, byLock, s, t); }
    }
  }

  // ---------------------------------------------------------------------------------------------
  // Every serial history happens
  // ---------------------------------------------------------------------------------------------

  lemma ExecStep(w: Width, mgr: Manager, strategy: Strategy, s: Sys, acts: seq<Act>, x: Act)
    requires Sized(mgr, s.profile)
    ensures Sized(mgr, Exec(w, mgr, strategy, s, acts).profile)
    ensures Exec(w, mgr, strategy, s, acts + [x]) == Next(w, mgr, strategy, Exec(w, mgr, strategy, s, acts), x)
  {
    assert (acts + [x])[..|acts|] == acts;
  }

  /** Assignments left in the call. */
  function Left(pc: Pc): nat {
    match pc
    case AtTick(_) => 9
    case AtCompare(_) => 8
    case AtFlushInsert(_) => 7
    case AtFlushReset(_) => 6
    case AtSetOne(_) => 5
    case AtInsert(_) => 4
    case AtSetLast(_) => 3
    case AtIncrement(_) => 2
    case AtRead(_) => 2
    case AtRelease(_) => 1
  }

  /** Thread t alone is in the middle of call `e` on `p`, and holds the guard of the call. */
  ghost predicate Alone(w: Width, mgr: Manager, strategy: Strategy, r: Sys, t: nat, p: Profile, e: Event, out: seq<nat>)
    requires Sized(mgr, p)
  {
    && r.inside.Keys == {t} && InMiddle(w, mgr, p, e, out, r, r.inside[t])
    && r.lock == ByLock(mgr, strategy, e) && r.flag == !r.lock
  }

  lemma AloneMoves(w: Width, mgr: Manager, strategy: Strategy, r: Sys, t: nat, p: Profile, e: Event, out: seq<nat>)
    requires Sized(mgr, p) && Sized(mgr, r.profile) && Alone(w, mgr, strategy, r, t, p, e, out)
    requires !r.inside[t].AtRelease?
    ensures var u := Next(w, mgr, strategy, r, Advance(t));
            && Alone(w, mgr, strategy, u, t, p, e, out) && u.calls == r.calls
            && Left(u.inside[t]) < Left(r.inside[t])
  {
    BodyInMiddle(w, mgr, p, e, out, r, t);
    var u := AfterBody(w, mgr, r, t);
    assert u.inside.Keys == r.inside.Keys;
  }

  ghost predicate AtRest(s: Sys) { s.inside == map[] && !s.lock && !s.flag }

  lemma AloneLeaves(w: Width, mgr: Manager, strategy: Strategy, r: Sys, t: nat, p: Profile, e: Event, out: seq<nat>)
    requires Sized(mgr, p) && Sized(mgr, r.profile) && Alone(w, mgr, strategy, r, t, p, e, out)
    requires r.inside[t].AtRelease?
    ensures var u := Next(w, mgr, strategy, r, Advance(t));
            && AtRest(u) && u.calls == r.calls && u.profile == Handle(w, mgr, p, e)
            && u.answers == out + if e.GetResult? then [FindMax(Handle(w, mgr, p, e).steady)] else []
  {
    assert r.inside - {t} == map[];
  }

  /** `longer` goes on from `acts` without a new call. */
  ghost predicate GoesOn(acts: seq<Act>, longer: seq<Act>) {
    acts <= longer && forall i :: |acts| <= i < |longer| ==> longer[i].Advance?
  }

  /** A call that nobody interrupts runs to its end and does what the call does. */
  lemma {:induction false} CallEnds(w: Width, mgr: Manager, strategy: Strategy, s: Sys, acts: seq<Act>, t: nat,
                                    p: Profile, e: Event, out: seq<nat>) returns (longer: seq<Act>)
    requires Sized(mgr, s.profile) && Sized(mgr, p)
    requires Alone(w, mgr, strategy, Exec(w, mgr, strategy, s, acts), t, p, e, out)
    ensures var u := Exec(w, mgr, strategy, s, longer);
            && AtRest(u) && u.calls == Exec(w, mgr, strategy, s, acts).calls && u.profile == Handle(w, mgr, p, e)
            && u.answers == out + if e.GetResult? then [FindMax(Handle(w, mgr, p, e).steady)] else []
    ensures GoesOn(acts, longer)
    decreases Left(Exec(w, mgr, strategy, s, acts).inside[t])
  {
    var r := Exec(w, mgr, strategy, s, acts);
    ExecStep(w, mgr, strategy, s, acts, Advance(t));
    longer := acts + [Advance(t)];
    if r.inside[t].AtRelease? {
      AloneLeaves(w, mgr, strategy, r, t, p, e, out);
    } else {
      AloneMoves(w, mgr, strategy, r, t, p, e, out);
      longer := CallEnds(w, mgr, strategy, s, longer, t, p, e, out);
    }
  }

  /** At rest every call is admitted at once. */
  lemma FreeGuardAdmits(w: Width, mgr: Manager, strategy: Strategy, r: Sys, t: nat, e: Event)
    requires Sized(mgr, r.profile) && AtRest(r)
    ensures var u := Next(w, mgr, strategy, r, Attempt(t, e));
            Alone(w, mgr, strategy, u, t, r.profile, e, r.answers) && u.calls == r.calls + [Call(e, true)]
  {
    var u := Next(w, mgr, strategy, r, Attempt(t, e));
    assert u.inside == map[t := First(e)];
    assert r.answers + [] == r.answers;
  }

  /** At rest, with exactly the calls `h` admitted, their profile and their answers. */
  ghost predicate Outcome(w: Width, cfg: Config, s: Sys, h: seq<Event>)
    requires cfg.Ok()
  {
    AtRest(s) && Admitted(s.calls) == h && s.profile == Run(w, cfg, h) && s.answers == AnswersOf(w, cfg, h)
  }

  lemma OutcomeStep(w: Width, cfg: Config, r: Sys, u: Sys, g: seq<Event>, e: Event)
    requires cfg.Ok() && Outcome(w, cfg, r, g) && AtRest(u)
    requires u.calls == r.calls + [Call(e, true)] && u.profile == Handle(w, cfg.mgr, r.profile, e)
    requires u.answers == r.answers + if e.GetResult? then [FindMax(u.profile.steady)] else []
    ensures Outcome(w, cfg, u, g + [e])
  {
    AdmittedStep(r.calls, Call(e, true));
    LastOf(g, e);
  }

  /** The calls among `acts` are from `W`. */
  ghost predicate CallsFrom(acts: seq<Act>, W: iset<Event>) {
    forall i :: 0 <= i < |acts| && acts[i].Attempt? ==> acts[i].e in W
  }

  lemma GoesOnFrom(acts: seq<Act>, longer: seq<Act>, W: iset<Event>)
    requires GoesOn(acts, longer) && CallsFrom(acts, W)
    ensures CallsFrom(longer, W)
  {
    assert forall i :: 0 <= i < |acts| ==> longer[i] == acts[i];
  }

  lemma CallsConcat(a: seq<Act>, b: seq<Act>, W: iset<Event>)
    requires CallsFrom(a, W) && CallsFrom(b, W)
    ensures CallsFrom(a + b, W)
  {
  }

  /** From rest, a call is admitted and runs to its end. */
  lemma CallRuns(w: Width, mgr: Manager, strategy: Strategy, s: Sys, acts: seq<Act>, e: Event)
    returns (longer: seq<Act>)
    requires Sized(mgr, s.profile) && AtRest(Exec(w, mgr, strategy, s, acts))
    ensures Sized(mgr, Exec(w, mgr, strategy, s, acts).profile)
    ensures var r, u := Exec(w, mgr, strategy, s, acts), Exec(w, mgr, strategy, s, longer);
            && AtRest(u) && u.calls == r.calls + [Call(e, true)] && u.profile == Handle(w, mgr, r.profile, e)
            && u.answers == r.answers + if e.GetResult? then [FindMax(u.profile.steady)] else []
    ensures GoesOn(acts + [Attempt(0, e)], longer)
  {
    var r := Exec(w, mgr, strategy, s, acts);
    ExecStep(w, mgr, strategy, s, acts, Attempt(0, e));
    FreeGuardAdmits(w, mgr, strategy, r, 0, e);
    longer := CallEnds(w, mgr, strategy, s, acts + [Attempt(0, e)], 0, r.profile, e, r.answers);
  }

  lemma OneMoreCall(w: Width, cfg: Config, strategy: Strategy, acts: seq<Act>, g: seq<Event>, e: Event, W: iset<Event>)
    returns (longer: seq<Act>)
    requires cfg.Ok() && Outcome(w, cfg, Exec(w, cfg.mgr, strategy, Start(cfg), acts), g)
    requires CallsFrom(acts, W) && e in W
    ensures Outcome(w, cfg, Exec(w, cfg.mgr, strategy, Start(cfg), longer), g + [e]) && CallsFrom(longer, W)
  {
    longer := CallRuns(w, cfg.mgr, strategy, Start(cfg), acts, e);
    OutcomeStep(w, cfg, Exec(w, cfg.mgr, strategy, Start(cfg), acts), Exec(w, cfg.mgr, strategy, Start(cfg), longer),
                g, e);
    CallsConcat(acts, [Attempt(0, e)], W);
    GoesOnFrom(acts + [Attempt(0, e)], longer, W);
  }

  /** For both managers and both strategies every history of calls happens: some schedule makes only these calls, has
      them admitted in this order, and ends at rest with their profile and their answers. */
  lemma {:induction false} EveryHistoryHappens(w: Width, cfg: Config, strategy: Strategy, h: seq<Event>, W: iset<Event>)
    returns (acts: seq<Act>)
    requires cfg.Ok() && forall e :: e in h ==> e in W
    ensures Outcome(w, cfg, Exec(w, cfg.mgr, strategy, Start(cfg), acts), h) && CallsFrom(acts, W)
  {
    if h == [] {
      acts := [];
    } else {
      acts := EveryHistoryHappens(w, cfg, strategy, h[..|h| - 1], W);
      acts := OneMoreCall(w, cfg, strategy, acts, h[..|h| - 1], h[|h| - 1], W);
      assert h == h[..|h| - 1] + [h[|h| - 1]];
    }
  }

  // ---------------------------------------------------------------------------------------------
  // Two guards: `getResult` against a flagged update
  // ---------------------------------------------------------------------------------------------

  /** The FirstN manager under the flag. */
  function Flagged(s: Sys, acts: seq<Act>): Sys
    requires Sized(FirstN, s.profile)
  {
    Exec(Exact, FirstN, FlaggedAll, s, acts)
  }

  lemma Then(s: Sys, acts: seq<Act>, x: Act)
    requires Sized(FirstN, s.profile)
    ensures Sized(FirstN, Flagged(s, acts).profile)
    ensures Flagged(s, acts + [x]) == Next(Exact, FirstN, FlaggedAll, Flagged(s, acts), x)
  {
    ExecStep(Exact, FirstN, FlaggedAll, s, acts, x);
  }

  lemma SizeKept(s: Sys, acts: seq<Act>)
    requires Sized(FirstN, s.profile)
    ensures Sized(FirstN, Flagged(s, acts).profile)
  {
    Then(s, acts, Advance(0));
  }

  /** `getResult` enters and inserts; a sample of the last value enters. */
  lemma BothEnter(s: Sys, t: nat, u: nat) returns (acts: seq<Act>)
    requires Sized(FirstN, s.profile) && t != u && s.inside == map[] && !s.flag && !s.lock
    ensures var p, v := s.profile, Sample(s.profile.lastValue);
            Flagged(s, acts) == Sys(Insert(Exact, FirstN, p, p.lastValue, p.numTimes), true, true,
                                    map[t := AtFlushReset(GetResult), u := AtTick(v)],
                                    s.calls + [Call(GetResult, true)] + [Call(v, true)], s.answers)
    ensures acts == [Attempt(t, GetResult), Advance(t), Attempt(u, Sample(s.profile.lastValue))]
  {
    var v := Sample(s.profile.lastValue);
    Then(s, [], Attempt(t, GetResult));
    Then(s, [] + [Attempt(t, GetResult)], Advance(t));
    Then(s, [] + [Attempt(t, GetResult)] + [Advance(t)], Attempt(u, v));
    acts := [] + [Attempt(t, GetResult)] + [Advance(t)] + [Attempt(u, v)];
    assert Flagged(s, acts).inside == map[t := AtFlushReset(GetResult), u := AtTick(v)];
  }

  /** One assignment of thread u while thread t is held up at `pt`. */
  lemma OneMore(s: Sys, acts: seq<Act>, t: nat, u: nat, r: Sys, pt: Pc, pc: Pc)
    requires Sized(FirstN, s.profile) && t != u && Flagged(s, acts) == r && r.inside == map[t := pt, u := pc]
    requires Sized(FirstN, r.profile) && !pc.AtRelease? && !pc.AtRead?
    ensures var (p, pc') := BodyStep(Exact, FirstN, r.profile, pc);
            Flagged(s, acts + [Advance(u)]) == r.(profile := p, inside := map[t := pt, u := pc'])
  {
    Then(s, acts, Advance(u));
    var pc' := BodyStep(Exact, FirstN, r.profile, pc).1;
    assert r.inside[u := pc'] == map[t := pt, u := pc'];
    assert r.answers + [] == r.answers;
  }

  /** The sample runs to its end: it raises the pending count. */
  lemma SampleRuns(s: Sys, acts: seq<Act>, t: nat, u: nat, q: Profile, calls: seq<Call>) returns (longer: seq<Act>)
    requires Sized(FirstN, s.profile) && t != u
    requires var v := Sample(q.lastValue);
             Flagged(s, acts) ==
             Sys(q, true, true, map[t := AtFlushReset(GetResult), u := AtTick(v)], calls, s.answers)
    ensures Flagged(s, longer) ==
            Sys(q.(numTimes := q.numTimes + 1), false, true, map[t := AtFlushReset(GetResult)], calls, s.answers)
    ensures GoesOn(acts, longer)
  {
    var x, pt, v := Advance(u), AtFlushReset(GetResult), Sample(q.lastValue);
    var q' := q.(numTimes := q.numTimes + 1);
    SizeKept(s, acts);
    OneMore(s, acts, t, u, Flagged(s, acts), pt, AtTick(v));
    OneMore(s, acts + [x], t, u, Flagged(s, acts + [x]), pt, AtCompare(v));
    OneMore(s, acts + [x] + [x], t, u, Flagged(s, acts + [x] + [x]), pt, AtIncrement(v));
    assert Flagged(s, acts + [x] + [x] + [x]) == Sys(q', true, true, map[t := pt, u := AtRelease(v)], calls, s.answers);
    Then(s, acts + [x] + [x] + [x], x);
    longer := acts + [x] + [x] + [x] + [x];
    assert map[t := pt, u := AtRelease(v)] - {u} == map[t := pt];
  }

  /** `getResult` resets the pending count, reads and releases. */
  lemma FlushEnds(s: Sys, acts: seq<Act>, t: nat, q: Profile, calls: seq<Call>) returns (longer: seq<Act>)
    requires Sized(FirstN, s.profile) && Sized(FirstN, q)
    requires Flagged(s, acts) == Sys(q, false, true, map[t := AtFlushReset(GetResult)], calls, s.answers)
    ensures Flagged(s, longer) ==
            Sys(q.(numTimes := 0), false, false, map[], calls, s.answers + [FindMax(q.steady)])
    ensures GoesOn(acts, longer)
  {
    var x, q' := Advance(t), q.(numTimes := 0);
    Then(s, acts, x);
    assert Flagged(s, acts + [x]) == Sys(q', false, true, map[t := AtRead(GetResult)], calls, s.answers);
    Then(s, acts + [x], x);
    assert Flagged(s, acts + [x] + [x]) ==
           Sys(q', false, true, map[t := AtRelease(GetResult)], calls, s.answers + [FindMax(q.steady)]);
    Then(s, acts + [x] + [x], x);
    longer := acts + [x] + [x] + [x];
    assert map[t := AtRelease(GetResult)] - {t} == map[];
  }

  /** From every profile at rest: a sample of the last value that comes between the insert and the reset of the
      flush in `getResult` is admitted and leaves no trace. The profile is that of `getResult` alone, which is not
      that of the calls in order of admission nor, once the value has a count, of the other order. */
  lemma SampleLostToFlush(s: Sys, t: nat, u: nat) returns (acts: seq<Act>)
    requires Sized(FirstN, s.profile) && t != u && s.inside == map[] && !s.flag && !s.lock
    ensures var v, p, r := Sample(s.profile.lastValue), s.profile, Flagged(s, acts);
            && r.inside == map[] && r.calls == s.calls + [Call(GetResult, true)] + [Call(v, true)]
            && r.profile == Flush(Exact, FirstN, p)
            && r.profile != Handle(Exact, FirstN, Handle(Exact, FirstN, p, GetResult), v)
            && (TableFreq(p.steady, v.value) > 0 ==>
                  r.profile != Handle(Exact, FirstN, Handle(Exact, FirstN, p, v), GetResult))
    ensures GoesOn([Attempt(t, GetResult), Advance(t), Attempt(u, Sample(s.profile.lastValue))], acts)
  {
    var p := s.profile;
    var q := Insert(Exact, FirstN, p, p.lastValue, p.numTimes);
    var calls := s.calls + [Call(GetResult, true)] + [Call(Sample(p.lastValue), true)];
    var a := BothEnter(s, t, u);
    var b := SampleRuns(s, a, t, u, q, calls);
    acts := FlushEnds(s, b, t, q.(numTimes := q.numTimes + 1), calls);
    var i := FindValue(p.steady, p.lastValue);
    if TableFreq(p.steady, p.lastValue) > 0 {
      assert q.steady[i].freq == p.steady[i].freq + p.numTimes;
    }
  }

  // ---------------------------------------------------------------------------------------------
  // Exactly when the calls serialise
  // ---------------------------------------------------------------------------------------------

  lemma {:induction false} FlaggedConcat(s: Sys, a: seq<Act>, b: seq<Act>)
    requires Sized(FirstN, s.profile)
    ensures Sized(FirstN, Flagged(s, a).profile) && Flagged(s, a + b) == Flagged(Flagged(s, a), b)
    decreases |b|
  {
    if b == [] {
      assert a + b == a;
      SizeKept(s, a);
    } else {
      var c, x := b[..|b| - 1], b[|b| - 1];
      FlaggedConcat(s, a, c);
      assert a + b == (a + c) + [x] && b == c + [x];
      Then(s, a + c, x);
      Then(Flagged(s, a), c, x);
    }
  }

  /** The serial history that the race is admitted as. */
  lemma RaceHistory(cfg: Config, v: Event, calls: seq<Call>)
    requires cfg.Ok() && v.Sample? && Admitted(calls) == [v]
    ensures Run(Exact, cfg, [v]).lastValue == v.value
    ensures var h := Admitted(calls + [Call(GetResult, true)] + [Call(v, true)]);
            Run(Exact, cfg, h)
            == Handle(Exact, cfg.mgr, Handle(Exact, cfg.mgr, Run(Exact, cfg, [v]), GetResult), v)
  {
    var h := [v];
    AdmittedStep(calls, Call(GetResult, true));
    AdmittedStep(calls + [Call(GetResult, true)], Call(v, true));
    LastOf([], v);
    LastOf(h, GetResult);
    LastOf(h + [GetResult], v);
    assert [] + [v] == h;
  }

  /** One sample, then the race: the next sample is lost. */
  lemma NotSerial(cfg: Config, x: nat, W: iset<Event>) returns (acts: seq<Act>)
    requires cfg.Ok() && cfg.mgr.FirstN? && Sample(x) in W && GetResult in W
    ensures CallsFrom(acts, W) && !SerialAtRest(Exact, cfg, Flagged(Start(cfg), acts))
  {
    var v, s := Sample(x), Start(cfg);
    var one := EveryHistoryHappens(Exact, cfg, FlaggedAll, [v], W);
    var r := Flagged(s, one);
    SizeKept(s, one);
    RaceHistory(cfg, v, r.calls);
    var more := SampleLostToFlush(r, 0, 1);
    FlaggedConcat(s, one, more);
    GoesOnFrom([Attempt(0, GetResult), Advance(0), Attempt(1, v)], more, W);
    CallsConcat(one, more, W);
    acts := one + more;
  }

  /** All calls of `W` go through the same guard: the manager or strategy locks always, or there is no `getResult`, or
      there is nothing else. */
  ghost predicate OneGuard(mgr: Manager, strategy: Strategy, W: iset<Event>) {
    AlwaysLocks(mgr, strategy) || GetResult !in W || forall e :: e in W ==> e.GetResult?
  }

  lemma OneGuardSerial(cfg: Config, strategy: Strategy, W: iset<Event>, acts: seq<Act>)
    requires cfg.Ok() && OneGuard(cfg.mgr, strategy, W) && CallsFrom(acts, W)
    ensures SerialAtRest(Exact, cfg, Exec(Exact, cfg.mgr, strategy, Start(cfg), acts))
  {
    var byLock := AlwaysLocks(cfg.mgr, strategy) || GetResult in W;
    forall i | 0 <= i < |acts| ensures Guarded(cfg.mgr, strategy, byLock, acts[i]) {
      if acts[i].Attempt? { assert acts[i].e in W; }
    }
    UpdatesSerialise(Exact, cfg, strategy, byLock, acts);
  }

  /** Exactness: however the threads interleave calls of `W`, the profile and the answers are always those of the
      admitted calls in turn, if and only if all calls of `W` go through one guard. */
  lemma SerialIff(cfg: Config, strategy: Strategy, W: iset<Event>)
    requires cfg.Ok()
    ensures (forall acts :: CallsFrom(acts, W) ==>
               SerialAtRest(Exact, cfg, Exec(Exact, cfg.mgr, strategy, Start(cfg), acts)))
            <==> OneGuard(cfg.mgr, strategy, W)
  {
    if OneGuard(cfg.mgr, strategy, W) {
      forall acts | CallsFrom(acts, W)
        ensures SerialAtRest(Exact, cfg, Exec(Exact, cfg.mgr, strategy, Start(cfg), acts)) {
        OneGuardSerial(cfg, strategy, W, acts);
      }
    } else {
      var e :| e in W && !e.GetResult?;
      var acts := NotSerial(cfg, e.value, W);
    }
  }
}
