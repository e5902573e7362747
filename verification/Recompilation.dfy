/** Admission of ready profiles to recompilation. `methodProfileIsReady` holds the lock only around the update
    of the set; compilation runs outside it, on any number of threads, and may re-enter. */
module Recompilation {
  import opened EBProfiles
  import CR = CollectorRuns

  /** `frames[t]` are the profiles thread t is recompiling, innermost last. */
  datatype State = State(inRecompile: set<Profile>, count: nat, frames: map<nat, seq<Profile>>,
                         admitted: seq<Profile>, finished: seq<Profile>)

  function Initial(): State { State({}, 0, map[], [], []) }

  function Frames(s: State, t: nat): seq<Profile> {
    if t in s.frames then s.frames[t] else []
  }

  /** Thread t reports p: nothing happens if p is being recompiled, by any thread. */
  function Ready(s: State, t: nat, p: Profile): State {
    if p in s.inRecompile then s
    else s.(inRecompile := s.inRecompile + {p}, count := s.count + 1,
            frames := s.frames[t := Frames(s, t) + [p]], admitted := s.admitted + [p])
  }

  /** Thread t finishes its innermost recompilation. */
  function Finish(s: State, t: nat): State {
    var f := Frames(s, t);
    if f == [] then s else
      var p := f[|f| - 1];
      s.(inRecompile := s.inRecompile - {p}, frames := s.frames[t := f[..|f| - 1]], finished := s.finished + [p])
  }

  /** p is recompiled by thread t at nesting depth i. */
  ghost predicate InFlight(s: State, t: nat, i: nat, p: Profile) {
    i < |Frames(s, t)| && Frames(s, t)[i] == p
  }

  ghost predicate SetIsFlights(s: State) {
    forall p :: p in s.inRecompile <==> exists t, i :: InFlight(s, t, i, p)
  }

  ghost predicate FlightsDistinct(s: State) {
    forall p, t, i, u, j :: InFlight(s, t, i, p) && InFlight(s, u, j, p) ==> t == u && i == j
  }

  ghost predicate Balanced(s: State) {
    s.count == |s.admitted| && multiset(s.admitted) == multiset(s.finished) + multiset(s.inRecompile)
  }

  ghost predicate Inv(s: State) {
    SetIsFlights(s) && FlightsDistinct(s) && Balanced(s)
  }

  lemma ReadyFlights(s: State, t: nat, p: Profile)
    requires p !in s.inRecompile
    ensures forall u, i, q :: InFlight(Ready(s, t, p), u, i, q) <==>
              InFlight(s, u, i, q) || (u == t && i == |Frames(s, t)| && q == p)
  {
  }

  lemma ReadySet(s: State, t: nat, p: Profile)
    requires SetIsFlights(s) && p !in s.inRecompile
    ensures SetIsFlights(Ready(s, t, p))
  {
    var r := Ready(s, t, p);
    ReadyFlights(s, t, p);
    assert InFlight(r, t, |Frames(s, t)|, p);
    forall q ensures q in r.inRecompile <==> exists u, i :: InFlight(r, u, i, q) {
      if q in s.inRecompile {
        var u, i :| InFlight(s, u, i, q);
        assert InFlight(r, u, i, q);
      }
    }
  }

  lemma ReadyDistinct(s: State, t: nat, p: Profile)
    requires SetIsFlights(s) && FlightsDistinct(s) && p !in s.inRecompile
    ensures FlightsDistinct(Ready(s, t, p))
  {
    ReadyFlights(s, t, p);
  }

  lemma ReadyBalanced(s: State, t: nat, p: Profile)
    requires Balanced(s) && p !in s.inRecompile
    ensures Balanced(Ready(s, t, p))
  {
    assert multiset(s.inRecompile + {p}) == multiset(s.inRecompile) + multiset{p};
  }

  lemma ReadyKeeps(s: State, t: nat, p: Profile)
    requires Inv(s)
    ensures Inv(Ready(s, t, p))
  {
    if p !in s.inRecompile {
      ReadySet(s, t, p);
      ReadyDistinct(s, t, p);
      ReadyBalanced(s, t, p);
    }
  }

  lemma FinishFlights(s: State, t: nat)
    requires Frames(s, t) != []
    ensures forall u, i, q :: InFlight(Finish(s, t), u, i, q) <==>
              InFlight(s, u, i, q) && !(u == t && i == |Frames(s, t)| - 1)
  {
  }

  lemma FinishSet(s: State, t: nat)
    requires SetIsFlights(s) && FlightsDistinct(s) && Frames(s, t) != []
    ensures SetIsFlights(Finish(s, t))
  {
    var f, r := Frames(s, t), Finish(s, t);
    FinishFlights(s, t);
    assert InFlight(s, t, |f| - 1, f[|f| - 1]);
    forall q ensures q in r.inRecompile <==> exists u, i :: InFlight(r, u, i, q) {
      if q in r.inRecompile {
        var u, i :| InFlight(s, u, i, q);
        assert InFlight(r, u, i, q);
      }
    }
  }

  lemma FinishBalanced(s: State, t: nat)
    requires SetIsFlights(s) && Balanced(s) && Frames(s, t) != []
    ensures Balanced(Finish(s, t))
  {
    var f, r := Frames(s, t), Finish(s, t);
    assert InFlight(s, t, |f| - 1, f[|f| - 1]);
    assert multiset(s.inRecompile) == multiset(r.inRecompile) + multiset{f[|f| - 1]};
  }

  lemma FinishKeeps(s: State, t: nat)
    requires Inv(s)
    ensures Inv(Finish(s, t))
  {
    if Frames(s, t) != [] {
      FinishFlights(s, t);
      FinishSet(s, t);
      FinishBalanced(s, t);
    }
  }

  /** A recompilation that ends leaves the set and every thread as they were before it began, so the profile can be
      admitted again. */
  lemma FinishUndoesReady(s: State, t: nat, p: Profile)
    requires p !in s.inRecompile
    ensures var r := Finish(Ready(s, t, p), t);
            && r.inRecompile == s.inRecompile && (forall u :: Frames(r, u) == Frames(s, u))
            && r.count == s.count + 1 && r.admitted == s.admitted + [p] && r.finished == s.finished + [p]
  {
    var f := Frames(s, t);
    assert (f + [p])[..|f|] == f;
  }

  /** Thread t finishes all it has begun. */
  function FinishAll(s: State, t: nat): State
    decreases |Frames(s, t)|
  {
    if Frames(s, t) == [] then s else FinishAll(Finish(s, t), t)
  }

  lemma {:induction false} FinishAllKeeps(s: State, t: nat)
    requires Inv(s)
    ensures var r := FinishAll(s, t);
            && Inv(r) && Frames(r, t) == [] && r.admitted == s.admitted
            && forall u :: u != t ==> Frames(r, u) == Frames(s, u)
    decreases |Frames(s, t)|
  {
    if Frames(s, t) != [] {
      FinishKeeps(s, t);
      FinishAllKeeps(Finish(s, t), t);
    }
  }

  function FinishThreads(s: State, threads: seq<nat>): State
    decreases |threads|
  {
    if threads == [] then s else FinishThreads(FinishAll(s, threads[0]), threads[1..])
  }

  lemma NobodyInFlight(s: State)
    requires Inv(s) && forall u :: Frames(s, u) == []
    ensures s.inRecompile == {} && multiset(s.finished) == multiset(s.admitted)
  {
    assert forall t, i, p :: !InFlight(s, t, i, p);
    assert s.inRecompile == {};
    assert multiset(s.inRecompile) == multiset{};
  }

  /** Nothing stays behind: when all threads that are recompiling have finished what they have begun, the set is empty
      and every admission has ended. */
  lemma {:induction false} SetDrains(s: State, threads: seq<nat>)
    requires Inv(s) && forall u :: Frames(s, u) != [] ==> u in threads
    ensures var r := FinishThreads(s, threads);
            r.inRecompile == {} && r.admitted == s.admitted && multiset(r.finished) == multiset(s.admitted)
    decreases |threads|
  {
    if threads == [] {
      NobodyInFlight(s);
    } else {
      var t := threads[0];
      FinishAllKeeps(s, t);
      assert forall x :: x in threads && x != t ==> x in threads[1..];
      SetDrains(FinishAll(s, t), threads[1..]);
    }
  }

  // ---------------------------------------------------------------------------------------------
  // Together with the ASYNC collector
  // ---------------------------------------------------------------------------------------------

  const TIMER: nat := 0

  datatype System = System(col: CR.State, em: State)

  /** The collector's own steps, a report by a thread of another collector, and the end of a recompilation. */
  datatype Event = Collect(a: CR.Action) | Other(t: nat, p: Profile) | Done(t: nat)

  function Next(s: System, e: Event): System {
    match e
    case Collect(a) =>
      System(CR.Step(s.col, a),
             if CR.Reports(s.col, a) then Ready(s.em, TIMER, s.col.tmp[s.col.timer.k]) else s.em)
    case Other(t, p) => if p.async then s else s.(em := Ready(s.em, t, p))
    case Done(t) => s.(em := Finish(s.em, t))
  }

  function Run(events: seq<Event>): System {
    if events == [] then System(CR.Initial(), Initial())
    else Next(Run(events[..|events| - 1]), events[|events| - 1])
  }

  /** The admissions of the collector's own profiles. */
  function Own(s: seq<Profile>): seq<Profile> {
    if s == [] then [] else Own(s[..|s| - 1]) + if s[|s| - 1].async then [s[|s| - 1]] else []
  }

  lemma OwnStep(s: seq<Profile>, p: Profile)
    ensures Own(s + [p]) == Own(s) + if p.async then [p] else []
  {
    assert (s + [p])[..|s|] == s;
  }

  lemma {:induction false} OwnMembers(s: seq<Profile>, p: Profile)
    ensures p in Own(s) <==> p in s && p.async
  {
    if s != [] {
      OwnMembers(s[..|s| - 1], p);
      assert s == s[..|s| - 1] + [s[|s| - 1]];
    }
  }

  ghost predicate AllOwn(s: CR.State) { forall p :: p in s.created ==> p.async }

  ghost predicate Joint(s: System) {
    CR.Inv(s.col) && Inv(s.em) && AllOwn(s.col) && Own(s.em.admitted) == s.col.reported
  }

  /** A profile about to be reported was never admitted before, so it is not in the set. */
  lemma ReportIsFirst(s: System)
    requires Joint(s) && s.col.timer.Reporting? && s.col.timer.k < |s.col.tmp|
    ensures var p := s.col.tmp[s.col.timer.k]; p.async && p !in s.em.inRecompile
  {
    var k, p := s.col.timer.k, s.col.tmp[s.col.timer.k];
    assert p in CR.Outstanding(s.col) by { assert s.col.tmp[k..][0] == p; }
    assert CR.Places(s.col)[p] == 1 && p in s.col.created by {
      assert multiset(CR.Outstanding(s.col))[p] >= 1;
    }
    assert p !in s.col.reported;
    OwnMembers(s.em.admitted, p);
    assert p !in s.em.admitted;
    assert multiset(s.em.admitted)[p] == 0;
  }

  lemma CollectKeeps(s: System, a: CR.Action)
    requires Joint(s)
    ensures Joint(Next(s, Collect(a)))
  {
    CR.StepKeeps(s.col, a);
    CR.StepReported(s.col, a);
    assert AllOwn(CR.Step(s.col, a));
    if CR.Reports(s.col, a) {
      var p := s.col.tmp[s.col.timer.k];
      ReportIsFirst(s);
      ReadyKeeps(s.em, TIMER, p);
      OwnStep(s.em.admitted, p);
    }
  }

  lemma OtherKeeps(s: System, t: nat, p: Profile)
    requires Joint(s)
    ensures Joint(Next(s, Other(t, p)))
  {
    ReadyKeeps(s.em, t, p);
    OwnStep(s.em.admitted, p);
  }

  lemma DoneKeeps(s: System, t: nat)
    requires Joint(s)
    ensures Joint(Next(s, Done(t)))
  {
    FinishKeeps(s.em, t);
  }

  lemma StartKeeps()
    ensures Joint(System(CR.Initial(), Initial()))
  {
    assert multiset(Initial().inRecompile) == multiset{};
  }

  lemma {:induction false} RunKeeps(events: seq<Event>)
    ensures Joint(Run(events))
  {
    if events == [] {
      StartKeeps();
    } else {
      var s := Run(events[..|events| - 1]);
      RunKeeps(events[..|events| - 1]);
      match events[|events| - 1]
      case Collect(a) => CollectKeeps(s, a);
      case Other(t, p) => OtherKeeps(s, t, p);
      case Done(t) => DoneKeeps(s, t);
    }
  }

  /** In every interleaving, nested calls included: the set holds exactly the profiles in flight, each on one
      thread at one depth; a call for a profile in flight, from any thread, changes nothing; and each profile of
      the ASYNC collector is admitted exactly as often as it is reported, which is at most once in the whole run. */
  lemma AdmittedAtMostOnce(events: seq<Event>)
    ensures var s := Run(events);
            && (forall p :: p in s.em.inRecompile <==> exists t, i :: InFlight(s.em, t, i, p))
            && (forall p, t, i, u, j :: InFlight(s.em, t, i, p) && InFlight(s.em, u, j, p) ==> t == u && i == j)
            && (forall p, t, i, u :: InFlight(s.em, t, i, p) ==> Ready(s.em, u, p) == s.em)
            && Own(s.em.admitted) == s.col.reported && NoDuplicates(s.col.reported)
  {
    var s := Run(events);
    RunKeeps(events);
    forall p ensures multiset(s.col.reported)[p] <= 1 {
      assert multiset(s.col.reported)[p] <= CR.Places(s.col)[p];
    }
    CR.OnceNoDuplicates(s.col.reported);
  }
}
